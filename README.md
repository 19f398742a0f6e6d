# ICP-ToDoList task store, modelled in Dafny

This project models the core of the ICP-ToDoList canister: the `listStorage` map and the
nine request handlers of `src/index.ts` that create, list, sort, filter, fetch, update and
delete task records. The Express transport is removed. Each handler becomes a method that
takes the shared store and the decoded request. It returns a `Response`:

- `One` and `Many` stand for 200 with a JSON payload.
- `Text` stands for 200 with a plain message.
- `BadRequest` stands for 400.
- `NotFound` stands for 404.
- `ServerError` stands for a handler that throws, which the framework answers with 500.

Modules, one per concern:

- `Optional` (optional.dfy): the present/absent result that the store's `get` and `remove` return.
- `Json` (json.dfy): the JSON values a body can carry, plus `Date`. Also the JavaScript
  semantics the handlers use: a missing property reads as `undefined`, truthiness, `typeof`
  and `Array.isArray`.
- `Storage` (storage.dfy): the store. `Snapshot` is its abstract value: the iteration order
  and the key-to-record map. `Store` is a class whose `order` and `records` fields the
  `Insert`, `Remove` and `Clear` methods change in place.
- `Tasks` (tasks.dfy): the create checks, the two object spreads (create and update) and
  the clock conversion.
- `PrioritySort` (sorting.dfy): the stable sort by `priority`.
- `Labels` (labels.dfy): the comma split of the label query and the two label tests,
  `some`/`includes` on an array and `includes` on a string, with the cases where they throw.
- `TaskService` (service.dfy): the handlers. It also holds the clear-and-reinsert loop of
  delete-by-label and the proof of what that loop leaves behind.

A record is a map from field name to value (`Task = map<string, Value>`). The handler
spreads the request body into the record, so any extra fields the client sends are stored
too. The store's key is also a `Value`: it is whatever `list.id` or `task.id` holds when
the record is inserted.

Behaviours of the code that the model reproduces on purpose:

- A `priority` of `0` is refused, because `!priority` is true for 0.
- On create, `...req.body` comes after the generated `id` and `createdAt`, so a client
  `id` or `createdAt` wins. A client `id` that is already in use overwrites that record.
- On update, a body `id` replaces the record's `id` field while the record stays under
  the key `taskId`. The same goes for `createdAt`.
- Delete-by-label reinserts every kept record under its own `id` field. A record whose
  `id` an update changed therefore moves to that key, and two such records with the same
  `id` collapse into one: the later one in store order is kept (`Rebuilt`). When every record sits under its own `id` (`Keyed`),
  `DeleteByLabelKeepsSurvivors` proves the result is exactly the records without the
  label, under their old keys and in their old order.
- An update can store a `labels` field that is not an array. After that:
  - the label query throws (`ServerError`);
  - delete-by-label does a substring search when the field is a string, and throws for
    anything else.

In short, the code lets an update change a record's `id` and `createdAt` fields, and it
refuses a priority of 0. The model keeps both behaviours. The store's iteration order is
taken to be insertion order, because the B-tree behind `listStorage` is not part of this
model (see "Left out").

## Model

| member | source | states |
|---|---|---|
| Storage.Snapshot.Put | src/index.ts:15 | `insert` writes the record under its key. An existing key keeps its place in the iteration order and a new key goes last. Every other key and record is unchanged, and the key/order invariant still holds. |
| Storage.Snapshot.Delete | src/index.ts:15 | `remove` drops the key and nothing else. The remaining keys keep their iteration order (the new order is a subsequence of the old one). On a missing key the store is unchanged. |
| Storage.Snapshot.Values | src/index.ts:42 | `values()` lists exactly the stored records, one per key. |
| Storage.PutNewKeyAppends | src/index.ts:36 | Inserting under a key not yet present appends the record to `values()` and grows the store by one. |
| Storage.Store.constructor | src/index.ts:15 | A new store is empty. |
| Storage.Store.Insert | src/index.ts:36 | The store's new state is the old one with `Put(k, v)` applied. |
| Storage.Store.Get | src/index.ts:62 | Returns the record under the key, or `None` when the key is absent. |
| Storage.Store.Remove | src/index.ts:84 | Returns the removed record, or `None` when the key is absent. The new state is `Delete(k)` of the old one. |
| Storage.Store.Clear | src/index.ts:98 | Afterwards the store is empty. |
| Storage.Store.Size | src/index.ts:95 | Returns the number of records, which equals the length of `values()`. |
| Storage.Store.Values | src/index.ts:94 | Returns the records in iteration order. |
| Tasks.CreateError | src/index.ts:23-33 | The body is accepted iff `description` and `task` are non-empty strings, `priority` is a non-zero number and `labels` is an array of strings. The fields message comes first; the labels message only when the first three fields pass. |
| Tasks.NewTask | src/index.ts:35 | Every body field is kept with the body's value. The generated `id` and the creation time are used only where the body has no field of that name. No other fields are added. |
| Tasks.Merged | src/index.ts:76 | Every supplied field takes the body's value, `id` included. Every unsupplied field keeps its old value. `updatedAt` is the current time even if the body supplies one. No other fields appear. |
| Tasks.CurrentDate | src/index.ts:112-115 | The date is the clock reading in nanoseconds divided by 1,000,000, rounded down: `millis * 10^6 <= nanos < (millis + 1) * 10^6`. |
| PrioritySort.SortByPriority | src/index.ts:47 | The sort result has non-decreasing priority and is a permutation (same multiset) of its input. |
| PrioritySort.SortStable | src/index.ts:47 | The sort is stable: for every priority, the records of that priority appear in the same relative order as in the input. |
| PrioritySort.SortedStableUnique | src/index.ts:47 | Two sorted sequences that agree, priority by priority, on the records of that priority and their order, are equal. |
| PrioritySort.StableSortIsUnique | src/index.ts:47 | Any sorted sequence that keeps the input's order within each priority is `SortByPriority` of the input. So the model's sort is the result of any stable sort. |
| Labels.Split | src/index.ts:53 | `split(',')` gives at least one piece, and no piece contains the separator. |
| Labels.JoinSplit | src/index.ts:53 | Joining the pieces of a split with the separator gives back the original parameter. |
| Labels.SplitJoin | src/index.ts:53 | Splitting the join of separator-free pieces gives back exactly those pieces, so a label list written as a comma list is read back as the same list. |
| Labels.SharesLabel | src/index.ts:54 | The test answers iff `labels` is an array. It answers true iff one of the query labels is an element of that array. |
| Labels.IncludesLabel | src/index.ts:94 | The test answers iff `labels` is an array or a string. On an array it answers whether the label is an element. |
| Labels.Matching | src/index.ts:54 | The filter throws iff some record's `labels` is not an array. Otherwise it returns exactly the records sharing a query label, in their order in the input (a subsequence), each as many times as it occurs there. |
| Labels.Kept | src/index.ts:94 | The filter throws iff some record's test throws. Otherwise it returns exactly the records that do not carry the label, in their order in the input (a subsequence), each as many times as it occurs there. It returns as many records as it was given iff no record carries the label. |
| TaskService.CreateTask | src/index.ts:22-38 | A rejected body gives `BadRequest` with the first failing check's message, and the store is unchanged. An accepted body returns the new record, and the store changes by exactly one `insert` under the record's `id`. Both the every-record-has-an-id invariant and the `Keyed` invariant are preserved. |
| TaskService.CreateAddsOne | src/index.ts:35-36 | With a body that has no `id` and an unused generated id, create adds exactly one record, under the generated id, last in `values()`. |
| TaskService.ListTasks | src/index.ts:41-43 | Returns every stored record, once per key, in iteration order. |
| TaskService.ListSorted | src/index.ts:46-49 | The result is a permutation of `values()`, has non-decreasing priority, and keeps store order among equal priorities. The store is not modified. |
| TaskService.ListByLabels | src/index.ts:52-57 | Throws iff some stored record's `labels` is not an array. Otherwise returns exactly the stored records that carry a label from the comma-split query, as a permutation of the filtered list, sorted stably by priority. The store is not modified. |
| TaskService.GetTask | src/index.ts:60-67 | Returns the record under `id`, or `NotFound` with the source's message. |
| TaskService.UpdateTask | src/index.ts:70-79 | An unknown id gives `NotFound` and leaves the store unchanged. Otherwise it returns the merged record and stores it under `taskId`. The iteration order is unchanged, and every other key and record is unchanged. `Keyed` is kept unless the body sends a different `id`. |
| TaskService.DeleteTask | src/index.ts:82-89 | An unknown id gives `NotFound` and leaves the store unchanged. Otherwise it returns the removed record and only that key disappears. |
| TaskService.KeptAnswers | src/index.ts:94 | The delete-by-label filter over `values()` throws iff the `includes` test throws on some stored record. |
| TaskService.KeptHaveIds | src/index.ts:94-99 | Every record the filter keeps has an `id` to reinsert it under. |
| TaskService.Rebuilt | src/index.ts:98-99 | The store after clear-and-reinsert is valid. Its keys are exactly the `id`s of the kept records. Each key holds the last kept record with that `id`, so every kept record whose `id` no later kept record shares is stored. |
| TaskService.RebuiltLacksLabel | src/index.ts:94-100 | After clear-and-reinsert every stored record still has an `id`, and no record that `values()` then lists carries the deleted label. |
| TaskService.Replay | src/index.ts:99 | Reinserting records one by one leaves a valid store. The old keys come first in the order. The keys are the old ones plus the `id`s of the reinserted records. Each such `id` holds the last reinserted record with that `id`, and every other key keeps its old record. |
| TaskService.ReinsertAll | src/index.ts:99 | The `forEach` loop leaves the store equal to `Replay` of its old state and the kept records. |
| TaskService.KeptKeys | src/index.ts:94 | Exactly the keys whose records lack the label, as a subsequence of the key order, still duplicate-free. |
| TaskService.Survivors | src/index.ts:94 | The store restricted to the records lacking the label: valid, with exactly those keys and unchanged records, the keys in their old order (a subsequence of the old order). |
| TaskService.KeptValues | src/index.ts:94 | Filtering the values of a key order is the same as taking the values of the filtered key order. |
| TaskService.ReplayKeyed | src/index.ts:99 | Reinserting records under their own `id`s, none already present, appends those keys in order and adds exactly those records. |
| TaskService.DeleteByLabelKeepsSurvivors | src/index.ts:94-99 | When every record sits under its own `id`, clear-and-reinsert leaves exactly the records without the label, under their old keys and in their old order. |
| TaskService.DeleteByLabel | src/index.ts:92-101 | If the filter throws: `ServerError`, store unchanged. If no record carries the label: `NotFound`, store unchanged (and conversely). Otherwise the store is the cleared-and-reinserted kept records, as `Rebuilt` states: every kept record's `id` is a key again. The response lists the new store, and no listed record carries the label. Under `Keyed` the new store is exactly the old one minus the labelled records. |
| TaskService.DeleteAllTasks | src/index.ts:104-107 | Afterwards the store is empty whatever it held before, so a second call leaves the same state. The response is the source's message. |

## Left out

- The Express app, routing, JSON body parsing and the sending of status codes and payloads (src/index.ts:18-19, src/index.ts:109). Outcomes are the `Response` datatype.
- The `Server(...)` bootstrap and the canister host (src/index.ts:3, src/index.ts:17).
- The internals of `StableBTreeMap`: durability, and the serialization of keys and records. A `Date` stored there comes back as a string, which the model does not capture.
- Iteration order. The B-tree lists records in the order of their serialized keys; that code is not part of this model, so the model iterates in insertion order. Permutation, sortedness, stability and filter membership are proved relative to whatever `values()` returns.
- The result shape of the host library's `get` and `remove`. The model takes each to return the record or nothing, which is the case the handlers' `!task` and `!deletedTask` tests tell apart (src/index.ts:62-65, src/index.ts:84-87). A host version that wraps every result in a tagged option object would make those tests always false. That library is not part of this model.
- TaskService.Replay: besides keeping the old keys first, the contract does not fix the order in which the new keys are appended. That order is stated only when every record sits under its own `id` (`ReplayKeyed`, `DeleteByLabelKeepsSurvivors`).
- `uuidv4()`: the generated id is the parameter `freshId`. Nothing guarantees that it is unused: `CreateTask` overwrites on a clash, and `CreateAddsOne` states the outcome when the id is unused.
- `ic.time()`: the clock reading is the parameter `nanos`. Its monotonicity is not modelled.
- Tasks.CurrentDate: the model divides the exact 64-bit nanosecond reading by 10^6 and rounds down. The source (src/index.ts:113-114) first converts the reading to a double, which at present-day values is exact only to within 256 ns, and divides in floating point. A reading just below a millisecond boundary can therefore land on the next millisecond. For example, 1_699_999_999_999_999_999 ns gives 1_700_000_000_000 ms in the source and 1_699_999_999_999 ms in the model.
- JavaScript numbers. Priorities are integers; fractions, `NaN` and `Infinity` are not represented.
- PrioritySort.Priority: only an update can store a `priority` that is not a number. The comparator `a.priority - b.priority` converts both sides to numbers. The model converts numbers, booleans (`true` as 1, `false` as 0) and `null` (as 0) as JavaScript does, and takes every other value as 0.
  - Values that JavaScript converts to a number are sorted by that number in the source, but as 0 in the model. Examples: a numeric string such as `"7"` (7), or a one-element array whose element is numeric, such as `[7]` (7).
  - Other values convert to `NaN`. Examples: a missing field, an object, a non-numeric string, an array of two or more elements such as `[1, 2]` (it becomes `"1,2"`), and a one-element array whose element is not numeric, such as `["x"]`. With them the comparator returns `NaN`, which the sort reads as "equal". The comparator is then no longer consistent, and the order is up to the engine.
- Labels.IncludesLabel: for a string-valued `labels` field, the contract says only that the test answers. The substring search itself is the definition `IsInfix`, and no other definition is proved equal to it.
- Property order inside a record and in the JSON output.
- Concurrency: each handler runs to completion before the next.
