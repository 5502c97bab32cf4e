# Todo and weather app: a Dafny model of its core

The application keeps a to-do list and shows weather and news widgets. This project
models the parts of it that hold state and make decisions, and proves what they
promise.

- **Storage engine (`sbt_storage_engine.py`).** `SBTTree` is a size-balanced binary
  search tree from string keys to values.
  - `SbtSpec` states its node-level recursion (rotations, `_maintain`, `_insert`,
    `_delete`, `_search`) on values. It proves each one against a sorted
    association list (`SortedEntries`) under the code-point order of `KeyOrder`, which is Python's `str` comparison.
  - `Sbt.SbtTree` is the object whose `root` each public operation replaces. It
    stores Python values (`PyValues.Value`), so a stored `None` is a value of its own.
  - The `delete` result is modelled as written. A successful delete that leaves the
    same root object in place reports `false`.
- **Storage adapters (`core/storage_adapter.py`).**
  - `TaskStorageAdapter` serializes tasks into Python dictionaries (`PyValues`) and
    keeps them under the `task:` prefix.
  - `ConfigStorageAdapter` keeps one configuration dictionary under
    `app:config`.
  - A Python exception is the `Raised` outcome.
- **`TodoService` (`services/todo_service.py`).** Input validation with Python
  `str.strip`, the five task operations, and the completed, pending and statistics
  views.
- **`LocalTaskService` (`frontend/src/services/taskService.ts`).** The browser-side
  task list. It is a JavaScript `Map` kept as a sequence in insertion order, with
  JavaScript `trim` and a stable sort by creation time.
- **`MockWeatherService` (`frontend/src/services/weatherService.ts`).**
  - The input sanitizer (tag removal, dangerous characters, trim, 50-character cut).
  - The mock readings.
  - Exact and fuzzy city lookup.
  - The error messages of the geolocation call.
- **`useWeather` (`frontend/src/hooks/useWeather.ts`).** The React state of the
  weather widget, as a class whose methods are the hook's setters and loader
  steps. It includes which failures open the error dialog and what `refetch` and
  the debounced search effect load.
- **`MockNewsService` (`frontend/src/services/newsService.ts`).** Keyword search with
  its three-article fallback. The recommendation is the first four entries of any
  rearrangement of the stored articles.
- **`frontend/src/data/locations.ts`.** The country and city table and its three
  lookups.

Randomness, the clock, generated ids, injected faults and the browser's answer to
a position request are all parameters. Temperatures and wind speeds are in tenths.

## Model

Some definitions that model a source function carry no contract of their own; the
rows that judge them are these:
- `SbtSpec.Insert` (`_insert`) by `SbtSpec.InsertInorder`, `InsertSizes` and `InsertCorrect`.
- `SbtSpec.Delete` (`_delete`) by `SbtSpec.DeleteInorder`, `DeleteSizes` and `DeleteCorrect`.
- `SbtSpec.Search` (`_search`) by `SbtSpec.SearchFind`.
- `SbtSpec.Inorder` (`_inorder`) by `Sbt.InorderInto` and `Sbt.SbtTree.GetAll`.
- `SbtSpec.Leftmost` (`_find_min`) by `SbtSpec.LeftmostFirst` and `Sbt.FindMin`.
- `UseWeather.ShowsModal` (the keyword tests before `showErrorModal`) by the lemmas
  `UseWeather.ModalOnTimeoutAndNetwork`, `NoModalOnFallback`, `NoModalOnInvalidCity`,
  `NoModalOnInvalidLocation`, `GeolocationModal`, `GeolocationNoModal` and by
  `UseWeather.WeatherHook.Settle`.
- `Tasks.PyStrip` and `Tasks.JsTrim` (`str.strip`, `String.prototype.trim`) by
  `Tasks.TrimStart`, `Tasks.TrimEnd` and `Tasks.TrimEmptyIffBlank`.
- `WeatherService.ExactMatch` and `WeatherService.FuzzyMatch` (the two `find` tests) by
  `WeatherService.WeatherByLocation` and `WeatherService.SearchByCity`.
- `StorageAdapter.FetchTask` and `StorageAdapter.Collect` by
  `StorageAdapter.TaskStorageAdapter.GetTask`, `FetchSerialized`, `CollectSound` and
  `CollectComplete`.
- `LocalTasks.SetTask` (`Map.set`) by `LocalTasks.SetTaskCorrect`, and `LocalTasks.RemoveId`
  (`Map.delete`) by `LocalTasks.RemoveIdCorrect`.
- `Tasks.SortByCreated` (the sort by `created_at` / `createdAt`) by `Tasks.SortByCreatedCorrect`.
- `Todo.CompletedOf` and `Todo.PendingOf` (the two list comprehensions), whose own contracts
  give only each kept task's flag, by `Todo.CompletedPendingPartition` and
  `Todo.TodoService.GetCompletedTasks` / `GetPendingTasks`.

| member | source | states |
|---|---|---|
| KeyOrder.LtTransitive | sbt_storage_engine.py:85-100 | the key comparison the tree uses is transitive (with `LtIrreflexive`, `LtAsymmetric` and `LtTotal`, a strict total order) |
| KeyOrder.LtTotal | sbt_storage_engine.py:133-143 | any two keys are equal or one is smaller, so a search goes left, right or stops |
| SbtSpec.SizeIsCount | sbt_storage_engine.py:31-37 | in a tree whose cached sizes are right, the root's size is the number of stored entries |
| SbtSpec.RotateLeft | sbt_storage_engine.py:39-48 | a left rotation keeps the in-order entries and the subtree size, and keeps the cached sizes correct |
| SbtSpec.RotateRight | sbt_storage_engine.py:50-59 | a right rotation keeps the in-order entries and the subtree size, and keeps the cached sizes correct |
| SbtSpec.Maintain | sbt_storage_engine.py:61-83 | rebalancing keeps the in-order entries, the size and the correctness of the cached sizes, and never empties a node |
| SbtSpec.InsertInorder | sbt_storage_engine.py:85-100 | inserting into an ordered tree puts the key into the sorted entry list: a new key at its place, an existing key with its value replaced |
| SbtSpec.InsertSizes | sbt_storage_engine.py:85-100 | insertion keeps every cached size correct |
| SbtSpec.InsertCorrect | sbt_storage_engine.py:85-100 | insertion keeps the tree ordered and sized; afterwards the key finds the new value, every other key finds what it found before, and the size grows exactly when the key was new |
| SbtSpec.SearchFind | sbt_storage_engine.py:133-143 | searching an ordered tree returns the value the sorted entry list holds for the key, or none |
| SbtSpec.LeftmostFirst | sbt_storage_engine.py:102-106 | the leftmost node holds the first in-order entry |
| SbtSpec.DeleteInorder | sbt_storage_engine.py:108-131 | deleting from an ordered tree removes exactly that key's entry from the sorted list, including the two-child case that copies in the right subtree's minimum |
| SbtSpec.DeleteSizes | sbt_storage_engine.py:108-131 | deletion keeps every cached size correct |
| SbtSpec.DeleteCorrect | sbt_storage_engine.py:108-131 | deletion keeps the tree ordered and sized; the key is gone, every other key is unchanged, the size drops exactly when the key was present, and deleting a missing key changes no entry |
| SbtSpec.DeleteResultIsRootReplaced | sbt_storage_engine.py:156-160 | the result `delete` computes is true exactly when the root object was replaced; on an empty tree it is falsy (`None`) |
| SbtSpec.DeleteReportsFalseOnSuccess | sbt_storage_engine.py:156-160 | after inserting "b", "a" and "c", deleting "c" removes it but reports false; deleting the only key reports true |
| SortedEntries.PutSorted | sbt_storage_engine.py:85-100 | putting a key into a strictly sorted entry list keeps it sorted |
| SortedEntries.PutFind | sbt_storage_engine.py:166-171 | after a put, the key finds the new value and every other key is unchanged |
| SortedEntries.RemoveSorted | sbt_storage_engine.py:108-131 | removing a key keeps a sorted entry list sorted |
| SortedEntries.RemoveFind | sbt_storage_engine.py:108-131 | after a removal the key finds nothing and every other key is unchanged |
| Sbt.FindMin | sbt_storage_engine.py:102-106 | the loop down the left links returns the first in-order entry, which in an ordered tree has the smallest key |
| Sbt.InorderInto | sbt_storage_engine.py:145-150 | the walk appends exactly the subtree's in-order entries to the list it is given |
| Sbt.SbtTree.constructor | sbt_storage_engine.py:25-29 | a new tree is empty and valid |
| Sbt.SbtTree.Insert | sbt_storage_engine.py:152-154 | afterwards the key maps to the value, every other key keeps its value, and the size grows by one exactly when the key was new |
| Sbt.SbtTree.Delete | sbt_storage_engine.py:156-160 | the key is gone, every other key keeps its value; the result is the as-written flag, falsy (`None`) on an empty tree |
| Sbt.SbtTree.Search | sbt_storage_engine.py:162-164 | the value held for the key by the in-order entry list |
| Sbt.SbtTree.Update | sbt_storage_engine.py:166-171 | true exactly when `search` finds a value other than `None` under the key (a missing key or a stored `None` gives false); then the key maps to the new value; otherwise the tree is unchanged; other keys and the size never change |
| Sbt.SbtTree.GetAll | sbt_storage_engine.py:173-177 | every entry in strictly ascending key order, as many as `size` reports |
| Sbt.SbtTree.Size | sbt_storage_engine.py:179-181 | the cached root size equals the number of stored entries |
| PyValues.IsoRoundTrip | core/storage_adapter.py:31-32 | an instant written in text form parses back to the same instant |
| PyValues.ParseIso | core/storage_adapter.py:41-42 | only a non-empty all-digit text parses as an instant |
| StorageAdapter.TaskKey | core/storage_adapter.py:21-23 | the key is the prefix `task:` followed by the id |
| StorageAdapter.TaskKeyInjective | core/storage_adapter.py:19-23 | distinct ids get distinct keys, and no task key is the configuration key `app:config` |
| StorageAdapter.Serialize | core/storage_adapter.py:25-33 | the serialized task is a non-empty dictionary with exactly the five fields |
| StorageAdapter.Deserialize | core/storage_adapter.py:35-43 | a successful read needs all five fields, and the id, text and completion flag come from them |
| StorageAdapter.DeserializeSerialize | core/storage_adapter.py:25-43 | deserializing a serialized task gives the task back, with a missing update time kept missing |
| StorageAdapter.FetchSerialized | core/storage_adapter.py:56-62 | a stored serialized task is read back by `get_task` unchanged |
| StorageAdapter.CollectSound | core/storage_adapter.py:64-76 | every collected task comes from an entry under the `task:` prefix that deserializes to it |
| StorageAdapter.CollectComplete | core/storage_adapter.py:64-76 | every entry under the `task:` prefix that deserializes is collected |
| StorageAdapter.TaskStorageAdapter.GetTask | core/storage_adapter.py:56-62 | no stored value or a false value gives no task; a stored value that fails to deserialize raises |
| StorageAdapter.TaskStorageAdapter.SaveTask | core/storage_adapter.py:45-49 | afterwards `get_task` returns the saved task and every other key keeps its value |
| StorageAdapter.TaskStorageAdapter.DeleteTask | core/storage_adapter.py:51-54 | its key is gone, other keys are unchanged, and the result is the engine's `delete` flag |
| StorageAdapter.TaskStorageAdapter.GetAllTasks | core/storage_adapter.py:64-79 | the loop collects exactly the tasks that deserialize under the `task:` prefix; the result is them, sorted by creation time and a permutation of them |
| StorageAdapter.TaskStorageAdapter.UpdateTask | core/storage_adapter.py:81-86 | the given task is stamped with the update time; it is stored only when its key holds a value other than `None`, and the result says whether it did; other keys are unchanged |
| StorageAdapter.ConfigStorageAdapter.SaveConfig | core/storage_adapter.py:96-98 | the configuration key holds the dictionary; other keys are unchanged |
| StorageAdapter.ConfigStorageAdapter.LoadConfig | core/storage_adapter.py:100-103 | a stored configuration that is a true value is returned as stored; a missing one, or a false one (`None`, an empty dictionary, `0`, `""`), loads as an empty dictionary |
| StorageAdapter.ConfigStorageAdapter.UpdateConfig | core/storage_adapter.py:105-109 | the stored configuration gains or replaces one key and keeps the others; it raises, storing nothing, when the loaded configuration is not a dictionary |
| Tasks.TrimStart | services/todo_service.py:22-27 | leading trimming drops exactly a whitespace prefix and leaves a non-space first character |
| Tasks.TrimEnd | frontend/src/services/taskService.ts:11-17 | trailing trimming drops exactly a whitespace suffix and leaves a non-space last character |
| Tasks.TrimEmptyIffBlank | services/todo_service.py:22-23 | the stripped text is empty exactly when the text is empty or whitespace only, and it is a slice of the text |
| Tasks.SortByCreatedCorrect | core/storage_adapter.py:77-79 | sorting by creation time gives a sorted permutation, and tasks created at the same instant keep their order (a stable sort) |
| Todo.CompletedPendingPartition | services/todo_service.py:90-110 | the completed and pending lists together hold every task exactly once, and their lengths add up to the total |
| Todo.TodoService.CreateTask | services/todo_service.py:20-37 | blank text gives nothing and stores nothing; otherwise an open task with the stripped text and the id `task-` plus the suffix is stored and can be read back, and no other key changes |
| Todo.TodoService.ToggleTask | services/todo_service.py:39-53 | a missing task gives nothing and a read that raises propagates; otherwise the flipped and stamped task is stored under its own id's key, when that key holds a value other than `None`, and returned; no other key changes |
| Todo.TodoService.DeleteTask | services/todo_service.py:55-61 | the entry is gone, other keys are unchanged, and the result is the engine's flag |
| Todo.TodoService.GetAllTasks | services/todo_service.py:63-69 | the adapter's list, sorted by creation time |
| Todo.TodoService.UpdateTaskText | services/todo_service.py:71-88 | blank text or a missing task gives nothing; a read that raises propagates; otherwise the stripped text and update time are stored with completion unchanged, under the task's own key when it holds a value other than `None`; no other key changes |
| Todo.TodoService.GetCompletedTasks | services/todo_service.py:90-93 | the completed tasks of the full list, in its order |
| Todo.TodoService.GetPendingTasks | services/todo_service.py:95-98 | the open tasks of the full list, in its order |
| Todo.TodoService.GetTaskStats | services/todo_service.py:100-110 | the total splits into the completed and pending counts |
| LocalTasks.Get | frontend/src/services/taskService.ts:27-29 | finds a task exactly when one is stored under the id, and returns a task carrying that id |
| LocalTasks.SetTaskCorrect | frontend/src/services/taskService.ts:22-23 | `Map.set` maps the id to the new task, leaves other ids alone, keeps ids distinct, and grows the size exactly for a new id |
| LocalTasks.RemoveIdCorrect | frontend/src/services/taskService.ts:38-44 | `Map.delete` removes the id, leaves other ids alone, keeps ids distinct, and shrinks the size exactly when the id was present |
| LocalTasks.LocalTaskService.CreateTask | frontend/src/services/taskService.ts:10-25 | blank text gives null and changes nothing; otherwise an open task with the trimmed text is set under its id |
| LocalTasks.LocalTaskService.ToggleTask | frontend/src/services/taskService.ts:27-36 | a missing id gives null; otherwise the stored task is flipped and stamped in place |
| LocalTasks.LocalTaskService.DeleteTask | frontend/src/services/taskService.ts:38-44 | true exactly when the id was present; the id is gone afterwards |
| LocalTasks.LocalTaskService.GetAllTasks | frontend/src/services/taskService.ts:46-50 | the stored tasks, stably sorted by creation time and a permutation of them |
| LocalTasks.LocalTaskService.UpdateTaskText | frontend/src/services/taskService.ts:52-63 | blank text or a missing id gives null; otherwise the stored task gets the trimmed text and update time in place |
| JsText.IncludedAt | frontend/src/services/weatherService.ts:129-133 | `includes` holds when the query occurs at some position |
| JsText.NotIncluded | frontend/src/hooks/useWeather.ts:67 | `includes` fails when the query's first character never occurs |
| JsText.Lower | frontend/src/services/weatherService.ts:129-133 | lower-casing keeps the length and maps exactly the letters A to Z to a to z |
| WeatherService.StripTags | frontend/src/services/weatherService.ts:183 | no complete tag survives; without `>` no `>` is produced; without `<` the text is unchanged |
| WeatherService.RemoveDangerous | frontend/src/services/weatherService.ts:184 | no character of `<>'"&` survives, and clean text is unchanged |
| WeatherService.Sanitize | frontend/src/services/weatherService.ts:180-187 | at most 50 characters, no dangerous character, no leading whitespace, and the first min(50, n) characters of the trimmed cleaned text, n being its length |
| WeatherService.SanitizeEmpty | frontend/src/services/weatherService.ts:180-187 | the sanitized text is empty exactly when the cleaned text is blank |
| WeatherService.SanitizeKeepsClean | frontend/src/services/weatherService.ts:180-187 | short trimmed text without dangerous characters is left as it is |
| WeatherService.ClampHumidity | frontend/src/services/weatherService.ts:200 | humidity is clamped into 0 to 100 and kept when already inside |
| WeatherService.Generate | frontend/src/services/weatherService.ts:189-205 | the reading carries the city's name, description, icon and pressure; humidity lies in 0 to 100 and wind is non-negative |
| WeatherService.MockCity | frontend/src/services/weatherService.ts:98-107 | an unknown city gets one of the stock descriptions and icons, and a humidity of 30 to 89 |
| WeatherService.FindFirst | frontend/src/services/weatherService.ts:89-92 | `find` returns the first city satisfying the test, or none when no city does |
| WeatherService.WeatherByLocation | frontend/src/services/weatherService.ts:65-110 | empty sanitized input, then a network fault, then a slow answer are errors in that order; otherwise the reading is for the sanitized city, from the matching table row when there is one |
| WeatherService.SearchByCity | frontend/src/services/weatherService.ts:112-150 | a sanitized name under two characters, then a network fault, are errors; otherwise the first fuzzy match's reading, or a mock city's |
| WeatherService.CurrentWeather | frontend/src/services/weatherService.ts:55-63 | the reading is for one of the table's cities |
| WeatherService.GeoErrorMessage | frontend/src/services/weatherService.ts:31-43 | codes 1, 2 and 3 get their own messages; any other code gets the generic one |
| WeatherService.GeoErrorMessageInjective | frontend/src/services/weatherService.ts:31-43 | different known codes never share a message |
| WeatherService.CurrentPosition | frontend/src/services/weatherService.ts:21-53 | fails exactly when the browser has no geolocation or refuses with a code, with the matching message |
| WeatherService.WeatherByGeolocation | frontend/src/services/weatherService.ts:152-178 | a position error propagates its message; a simulated service fault gives the service-unavailable message; otherwise a reading for one of the first six (Chinese) cities, tagged as the current position |
| UseWeather.FromService | frontend/src/hooks/useWeather.ts:56-63 | a service result resolves exactly when it is a reading, and an error keeps its message |
| UseWeather.FailureMessage | frontend/src/hooks/useWeather.ts:62-64 | an error keeps its own message; a timeout gives the loader's timeout message; a non-error rejection gives the loader's fallback message |
| UseWeather.BeginStep | frontend/src/hooks/useWeather.ts:46-51 | a load starts loading and clears the error; the location loader switches to manual, the geolocation loader to geolocation |
| UseWeather.SettleStep | frontend/src/hooks/useWeather.ts:60-72 | a load always ends not loading; success stores the reading and failure stores the message, each leaving the other field as it was |
| UseWeather.SearchStep | frontend/src/hooks/useWeather.ts:195-197 | a search only sets the query and the search method |
| UseWeather.ClearStep | frontend/src/hooks/useWeather.ts:199-202 | clearing empties the query and returns to the default method, keeping the reading and the error |
| UseWeather.RefetchLoader | frontend/src/hooks/useWeather.ts:214-222 | search refetches the query (or the default when empty), geolocation refetches geolocation, and the other methods refetch the default |
| UseWeather.EffectLoader | frontend/src/hooks/useWeather.ts:181-188 | a non-blank debounced query is searched; an empty debounced and live query loads the default; otherwise nothing loads |
| UseWeather.RefetchKeepsMethod | frontend/src/hooks/useWeather.ts:214-222 | a refetch never changes the location method |
| UseWeather.LoaderEndsNotLoading | frontend/src/hooks/useWeather.ts:70-72 | whatever happens in between, a load ends with loading off and the query the user typed |
| UseWeather.LastSettleWins | frontend/src/hooks/useWeather.ts:46-73 | with two overlapping loads, the one that settles last decides the shown reading |
| UseWeather.ModalOnTimeoutAndNetwork | frontend/src/hooks/useWeather.ts:67 | every loader's timeout message and both network messages open the error dialog |
| UseWeather.NoModalOnFallback | frontend/src/hooks/useWeather.ts:63 | the fallback messages never open the error dialog |
| UseWeather.NoModalOnInvalidCity | frontend/src/hooks/useWeather.ts:67 | the invalid-city message never opens the error dialog |
| UseWeather.NoModalOnInvalidLocation | frontend/src/hooks/useWeather.ts:92 | the invalid-location message never opens the error dialog |
| UseWeather.GeolocationModal | frontend/src/hooks/useWeather.ts:117 | for geolocation, refused permission, missing support, a position timeout and the simulated service fault (`定位服务暂时不可用，请稍后重试`) open the dialog |
| UseWeather.GeolocationNoModal | frontend/src/hooks/useWeather.ts:117 | for geolocation, an unavailable position and an unknown error do not open the dialog |
| UseWeather.WeatherHook.constructor | frontend/src/hooks/useWeather.ts:15-21 | the hook starts loading, with no reading, no error, an empty query and the default method |
| UseWeather.WeatherHook.SetLoading | frontend/src/hooks/useWeather.ts:26-28 | only `loading` changes, to the given value |
| UseWeather.WeatherHook.SetError | frontend/src/hooks/useWeather.ts:30-32 | only `error` changes, to the given message or none |
| UseWeather.WeatherHook.SetWeather | frontend/src/hooks/useWeather.ts:34-36 | only `weather` changes, to the given reading or none |
| UseWeather.WeatherHook.SetLocationMethod | frontend/src/hooks/useWeather.ts:42-44 | only `locationMethod` changes, to the given method |
| UseWeather.WeatherHook.SetSearchQuery | frontend/src/hooks/useWeather.ts:38-40 | setting the query also switches to the search method |
| UseWeather.WeatherHook.BeginLoad | frontend/src/hooks/useWeather.ts:46-51 | the state becomes the start-of-load state |
| UseWeather.WeatherHook.Settle | frontend/src/hooks/useWeather.ts:60-72 | the state becomes the settled state, and the dialog opens exactly for a failure whose message has a keyword |
| UseWeather.WeatherHook.SearchWeather | frontend/src/hooks/useWeather.ts:195-197 | the state becomes the search state |
| UseWeather.WeatherHook.ClearSearch | frontend/src/hooks/useWeather.ts:199-202 | the state becomes the cleared state |
| UseWeather.WeatherHook.Refetch | frontend/src/hooks/useWeather.ts:214-222 | starts the loader chosen for the current method and keeps that method |
| UseWeather.WeatherHook.RunEffect | frontend/src/hooks/useWeather.ts:181-188 | starts the loader the effect chooses for the debounced and live query, or leaves the state alone |
| NewsService.Filter | frontend/src/services/newsService.ts:62-66 | exactly the articles whose title, summary or category includes the query |
| NewsService.FilterKeepsOrder | frontend/src/services/newsService.ts:62-66 | the filter keeps the list order |
| NewsService.SearchNews | frontend/src/services/newsService.ts:57-69 | the matching articles, or the first three when none match |
| NewsService.SearchNewsNonEmpty | frontend/src/services/newsService.ts:57-69 | the search never returns an empty list, and what it returns is in list order |
| NewsService.SearchNewsEmptyQuery | frontend/src/services/newsService.ts:57-69 | an empty query returns every article |
| NewsService.RecommendedNews | frontend/src/services/newsService.ts:71-78 | four distinct stored articles, whatever order the shuffle produced |
| NewsService.ShuffledDistinct | frontend/src/services/newsService.ts:76 | any rearrangement of the stored articles has no repeats |
| Locations.FlattenLength | frontend/src/data/locations.ts:42-44 | the concatenated list has as many cities as the rows together |
| Locations.AllCities | frontend/src/data/locations.ts:42-44 | every row's cities, one row after another |
| Locations.FindCountry | frontend/src/data/locations.ts:47 | `find` returns the first row of the country, or none when no row has it |
| Locations.TableCountriesUnique | frontend/src/data/locations.ts:7-40 | no country appears in two rows |
| Locations.CitiesByCountry | frontend/src/data/locations.ts:46-49 | a listed country gets its row's cities; any other text gets an empty list |
| Locations.Countries | frontend/src/data/locations.ts:51-53 | one country per row, in table order |
| Locations.CitiesOfCountryAreListed | frontend/src/data/locations.ts:42-49 | every city of a country is among all cities |
| Locations.ListedCityHasCountry | frontend/src/data/locations.ts:42-53 | every listed city belongs to some listed country |

## Left out

- Sbt.SbtTree.Delete: on an empty tree the source's `delete` returns `None` (the value of `False or None`), which `delete_task` passes on to its callers; the model returns false, which has the same truth value, and every caller uses the result only as a truth value.
- JsText.Lower: only A to Z are lower-cased, not the full Unicode mapping of `toLowerCase`. Every city name in the table is CJK text, which has no case, so lower-casing leaves the names alone; a query character that either mapping changes is not CJK and can never be part of a match, so `FuzzyMatch` gives the same answer as with `toLowerCase`.

- **Disk persistence.** `SBTStorageEngine`'s pickle file, `save_to_disk` and `load_from_disk` are not modelled. The adapters hold the `SbtTree` directly.
- **Nodes as values.** The tree's nodes are values, not linked objects. Rotations and deletion are proved on values, and the object identity that `delete` compares is stood for by `SbtSpec.RootKept`, so aliasing between nodes is not modelled.
- **No balance proof.** The size-balance invariant that `_maintain` aims at is not proved; only order, sizes and contents are.
- **Floats.** Temperatures and wind speeds are integers in tenths, so the float rounding of `Math.round(x * 10) / 10` is not modelled. `completion_rate` in `get_task_stats` is not modelled either.
- **Instants.** Python `datetime` and its ISO text form are modelled as natural numbers written in decimal digits. Malformed text fails to parse, as `fromisoformat` raises.
- StorageAdapter.Deserialize: an id or text that is not a string, or a completion flag that is not a boolean, is refused here, while Python would build a task from it; only well-typed dictionaries are read back.
- **`None` values.** Python's `search` answers `None` both for a missing key and for a stored `None`. The model keeps the two apart in `Sbt.SbtTree.Search`, and each caller tests them as the source does: `is not None` in `update` (`Sbt.SbtTree.Found`), truthiness in `get_task` and `load_config`.
- **Dead `try` blocks in TodoService.** The `try`/`except` blocks in `TodoService` around saving, deleting and listing guard calls that cannot raise in this model, so their `except` branches are not modelled.
- **`get_task` propagates.** The `get_task` calls of `toggle_task` and `update_task_text` sit outside any `try`, so a failed read propagates as `Raised` instead of giving `None`.
- **Shared storage engine.** Both adapter constructors accept any `SbtTree`, so the two adapters may be given the same one. Sharing is reasoned about only through `StorageAdapter.TaskKeyInjective`: no task key is the configuration key, and each adapter's frame keeps every other key.
- **Aliasing in LocalTaskService.** `toggleTask` and `updateTaskText` change the stored task object in place, so an array returned earlier by `getAllTasks`, and a task returned earlier by any method, sees the change. The model's tasks are values: it captures the map's new contents and the returned task, not the change showing through earlier results.
- **Browser-side effects.**
  - `localStorage` saving and loading in `LocalTaskService` is not modelled; a new service starts empty.
  - JavaScript strings are sequences of characters here, not UTF-16 code units.
- **React and the dialog.** Timers, `Promise.race`, the DOM error dialog and React's scheduling are not modelled. A loader is a start step and a settle step, and a timeout is one of the settlements.
  - `useDebounce` is the `debounced` parameter.
  - The mount effect is the first `RunEffect` or `BeginLoad`.
  - The dialog's retry button runs the same choice as `refetch`, but over the state captured when the dialog opened; that stale capture is not modelled.
- **No stale-response guard.** A slow early request can overwrite a newer one; `UseWeather.LastSettleWins` states exactly that the last settlement decides.
- **Refetch after a manual choice.** `refetch` in the manual method loads the default city, not the chosen one, as the code does.
- **`clearSearch` keeps the error.** The code does not reset the error on clearing, so neither does the model.
- **Unreachable message.** `getWeatherByGeolocation` rethrows every `Error` and turns anything else into a generic message. Every rejection it can meet is an `Error`, so that generic message is never produced and is not modelled.
- **Random draws as parameters.**
  - Random city choices, variations and shuffles are parameters.
  - `RecommendedNews` takes any rearrangement of the stored articles, whatever comparator-driven `sort` would produce.
  - `WeatherByGeolocation` takes the index drawn among the first six cities.
- **The timeouts themselves.** The 10 s and 8 s timeouts and the 0.5 s to 2 s simulated delays are not modelled; whether a call was slow or faulty is a parameter.
