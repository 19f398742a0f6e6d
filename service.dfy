/**
 * The nine request handlers of the task service, with the transport taken
 * away: each takes the shared store and the decoded request (path
 * parameter, body), and returns a `Response` that stands for the status
 * code and payload it would send. The generated id and the host clock
 * reading are parameters.
 */
module TaskService {

  import opened Optional
  import opened Json
  import opened Tasks
  import opened Storage
  import opened PrioritySort
  import opened Labels

  type TaskStore = Store<Value, Task>
  type State = Snapshot<Value, Task>

  datatype Response =
    | One(task: Task)              // 200 with one record
    | Many(tasks: seq<Task>)       // 200 with an array of records
    | Text(message: string)        // 200 with a plain message
    | BadRequest(message: string)  // 400
    | NotFound(message: string)    // 404
    | ServerError                  // the handler threw: 500

  const AllDeleted := "All tasks deleted!"

  function MissingTask(id: string): string {
    "Task with id " + id + " not found!"
  }

  function MissingLabel(tag: string): string {
    "No tasks with label " + tag + " found!"
  }

  /** Every stored record has an `id` field: create always sets one, and no handler removes fields. */
  ghost predicate HasIds(s: State) {
    forall k :: k in s.records ==> "id" in s.records[k]
  }

  /** Every record's `id` field is its key: true until an update sends a different `id`. */
  ghost predicate Keyed(s: State) {
    forall k :: k in s.records ==> "id" in s.records[k] && IdOf(s.records[k]) == k
  }

  /** The handlers' key for a record: `task.id`. */
  function IdOf(t: Task): Value
    requires "id" in t
  {
    t["id"]
  }

  // ---------------------------------------------------------------- create

  /** POST /tasks */
  method CreateTask(store: TaskStore, body: Fields, freshId: string, nanos: nat) returns (r: Response)
    requires store.Valid() && HasIds(store.State())
    modifies store
    ensures store.Valid() && HasIds(store.State())
    ensures CreateError(body).Some? ==>
      r == BadRequest(CreateError(body).value) && store.State() == old(store.State())
    ensures CreateError(body).None? ==>
      var t := NewTask(body, freshId, CurrentDate(nanos));
      r == One(t) && store.State() == old(store.State()).Put(IdOf(t), t)
    ensures Keyed(old(store.State())) ==> Keyed(store.State())
  {
    var err := CreateError(body);
    if err.Some? {
      return BadRequest(err.value);
    }
    var t := NewTask(body, freshId, CurrentDate(nanos));
    store.Insert(IdOf(t), t);
    r := One(t);
  }

  /**
   * A create whose body names no `id` of its own, given an id not in use,
   * adds exactly one record, last in iteration order, under that id.
   */
  lemma CreateAddsOne(s: State, body: Fields, freshId: string, now: Value)
    requires s.Valid() && "id" !in body && Str(freshId) !in s.records
    ensures var t := NewTask(body, freshId, now);
      && IdOf(t) == Str(freshId)
      && |s.Put(IdOf(t), t).records| == |s.records| + 1
      && s.Put(IdOf(t), t).Values() == s.Values() + [t]
  {
    var t := NewTask(body, freshId, now);
    PutNewKeyAppends(s, Str(freshId), t);
  }

  // ------------------------------------------------------------------ list

  /** GET /tasks */
  method ListTasks(store: TaskStore) returns (r: Response)
    requires store.Valid()
    ensures r.Many? && |r.tasks| == |store.records|
    ensures forall t :: t in r.tasks <==> exists k :: k in store.records && store.records[k] == t
    ensures r.tasks == ValuesOf(store.order, store.records)
  {
    var values := store.Values();
    r := Many(values);
  }

  /** GET /tasks/sorted */
  method ListSorted(store: TaskStore) returns (r: Response)
    requires store.Valid()
    ensures r.Many?
    ensures Sorted(r.tasks)
    ensures multiset(r.tasks) == multiset(store.State().Values())
    ensures forall p :: WithPriority(r.tasks, p) == WithPriority(store.State().Values(), p)
  {
    var values := store.Values();
    var sorted := SortByPriority(values);
    forall p
      ensures WithPriority(sorted, p) == WithPriority(values, p)
    {
      SortStable(values, p);
    }
    r := Many(sorted);
  }

  /** GET /tasks/labels/:labels */
  method ListByLabels(store: TaskStore, param: string) returns (r: Response)
    requires store.Valid()
    ensures r.Many? || r.ServerError?
    ensures r.ServerError? <==> exists t :: t in store.State().Values() && !IsArray(Get(t, "labels"))
    ensures r.Many? ==> Sorted(r.tasks)
    ensures r.Many? ==> forall t :: t in r.tasks <==>
      t in store.State().Values() && SharesLabel(t, Split(param, Comma)) == Some(true)
    ensures r.Many? ==>
      var matching := Matching(store.State().Values(), Split(param, Comma)).value;
      && multiset(r.tasks) == multiset(matching)
      && forall p :: WithPriority(r.tasks, p) == WithPriority(matching, p)
  {
    var query := Split(param, Comma);
    var values := store.Values();
    var matching := Matching(values, query);
    if matching.None? {
      return ServerError;
    }
    var sorted := SortByPriority(matching.value);
    forall p
      ensures WithPriority(sorted, p) == WithPriority(matching.value, p)
    {
      SortStable(matching.value, p);
    }
    assert forall t :: t in sorted <==> t in multiset(sorted);
    assert forall t :: t in matching.value <==> t in multiset(matching.value);
    r := Many(sorted);
  }

  // ------------------------------------------------------------- by id

  /** GET /tasks/id/:id */
  method GetTask(store: TaskStore, id: string) returns (r: Response)
    requires store.Valid()
    ensures Str(id) in store.records ==> r == One(store.records[Str(id)])
    ensures Str(id) !in store.records ==> r == NotFound(MissingTask(id))
  {
    var found := store.Get(Str(id));
    if found.None? {
      return NotFound(MissingTask(id));
    }
    r := One(found.value);
  }

  /** PUT /tasks/id/:id */
  method UpdateTask(store: TaskStore, id: string, body: Fields, nanos: nat) returns (r: Response)
    requires store.Valid() && HasIds(store.State())
    modifies store
    ensures store.Valid() && HasIds(store.State())
    ensures Str(id) !in old(store.records) ==>
      r == NotFound(MissingTask(id)) && store.State() == old(store.State())
    ensures Str(id) in old(store.records) ==>
      var u := Merged(old(store.records)[Str(id)], body, CurrentDate(nanos));
      r == One(u) && store.State() == old(store.State()).Put(Str(id), u)
    ensures store.order == old(store.order)
    ensures forall k :: k != Str(id) ==> (k in store.records <==> k in old(store.records))
    ensures forall k :: k != Str(id) && k in store.records ==> store.records[k] == old(store.records)[k]
    ensures Keyed(old(store.State())) && ("id" in body ==> body["id"] == Str(id)) ==> Keyed(store.State())
  {
    var found := store.Get(Str(id));
    if found.None? {
      return NotFound(MissingTask(id));
    }
    var u := Merged(found.value, body, CurrentDate(nanos));
    store.Insert(Str(id), u);
    r := One(u);
  }

  /** DELETE /tasks/id/:id */
  method DeleteTask(store: TaskStore, id: string) returns (r: Response)
    requires store.Valid() && HasIds(store.State())
    modifies store
    ensures store.Valid() && HasIds(store.State())
    ensures Str(id) !in old(store.records) ==>
      r == NotFound(MissingTask(id)) && store.State() == old(store.State())
    ensures Str(id) in old(store.records) ==>
      r == One(old(store.records)[Str(id)]) && store.State() == old(store.State()).Delete(Str(id))
    ensures Keyed(old(store.State())) ==> Keyed(store.State())
  {
    var removed := store.Remove(Str(id));
    if removed.None? {
      return NotFound(MissingTask(id));
    }
    r := One(removed.value);
  }

  // ---------------------------------------------------- delete by label

  /** Every record of `ts` has an `id` field. */
  predicate AllHaveIds(ts: seq<Task>) {
    forall i :: 0 <= i < |ts| ==> "id" in ts[i]
  }

  /** The delete-by-label test answers on every stored record, so the filter does not throw. */
  predicate LabelTestAnswers(s: State, tag: string) {
    forall k :: k in s.records ==> IncludesLabel(s.records[k], tag).Some?
  }

  /** The filter over `values()` succeeds exactly when the test answers on every stored record. */
  lemma KeptAnswers(s: State, tag: string)
    requires s.Valid()
    ensures Kept(s.Values(), tag).Some? <==> LabelTestAnswers(s, tag)
  {
    if LabelTestAnswers(s, tag) {
      forall t | t in s.Values()
        ensures IncludesLabel(t, tag).Some?
      {
        var k :| k in s.records && s.records[k] == t;
      }
    } else {
      var k :| k in s.records && IncludesLabel(s.records[k], tag).None?;
      assert s.records[k] in s.Values();
    }
  }

  /** The records a store lists, and those it keeps, all have an `id`. */
  lemma KeptHaveIds(s: State, tag: string)
    requires s.Valid() && HasIds(s) && LabelTestAnswers(s, tag)
    ensures AllHaveIds(Kept(s.Values(), tag).value)
  {
    var kept := Kept(s.Values(), tag).value;
    forall i | 0 <= i < |kept|
      ensures "id" in kept[i]
    {
      assert kept[i] in kept;
      assert kept[i] in s.Values();
    }
  }

  /** The store after a delete-by-label that matched: cleared, then the kept records reinserted. */
  function Rebuilt(s: State, tag: string): (t: State)
    requires s.Valid() && HasIds(s) && LabelTestAnswers(s, tag)
    ensures t.Valid()
    ensures Reinserted(Empty(), Kept(s.Values(), tag).value, t)
    ensures forall k :: k in t.records ==> t.records[k] in Kept(s.Values(), tag).value
  {
    KeptHaveIds(s, tag);
    Replay(Empty(), Kept(s.Values(), tag).value)
  }

  /** What clear-and-reinsert leaves: records that all have an `id` and none of which carries the label. */
  lemma RebuiltLacksLabel(s: State, tag: string)
    requires s.Valid() && HasIds(s) && LabelTestAnswers(s, tag)
    ensures HasIds(Rebuilt(s, tag))
    ensures forall t :: t in Rebuilt(s, tag).Values() ==> IncludesLabel(t, tag) == Some(false)
  {
    var t, kept := Rebuilt(s, tag), Kept(s.Values(), tag).value;
    forall k | k in t.records
      ensures "id" in t.records[k] && IncludesLabel(t.records[k], tag) == Some(false)
    {
      assert t.records[k] in kept;
      assert t.records[k] in s.Values();
    }
  }

  /** Some record of `ts` has `id` `k`. */
  predicate HasId(ts: seq<Task>, k: Value) {
    exists i :: 0 <= i < |ts| && "id" in ts[i] && IdOf(ts[i]) == k
  }

  /** `ts[i]` has an `id`, and no later record of `ts` has the same one. */
  predicate LastOfId(ts: seq<Task>, i: int) {
    && 0 <= i < |ts| && "id" in ts[i]
    && forall j :: i < j < |ts| && "id" in ts[j] ==> IdOf(ts[j]) != IdOf(ts[i])
  }

  /**
   * `s` is what inserting the records of `ts` one by one under their `id`s
   * leaves of `acc`: the old keys stay first in the order, the keys are the
   * old ones and the `id`s of `ts`, each `id` of `ts` holds the last record
   * of `ts` with that `id`, and every other key keeps its record.
   */
  ghost predicate Reinserted(acc: State, ts: seq<Task>, s: State) {
    && |acc.order| <= |s.order| && s.order[..|acc.order|] == acc.order
    && (forall k :: k in s.records <==> k in acc.records || HasId(ts, k))
    && (forall k :: k in acc.records && !HasId(ts, k) ==> k in s.records && s.records[k] == acc.records[k])
    && (forall i :: LastOfId(ts, i) ==> IdOf(ts[i]) in s.records && s.records[IdOf(ts[i])] == ts[i])
  }

  /** An `id` occurs in `ts` iff it is the first record's or occurs in the rest. */
  lemma HasIdCons(ts: seq<Task>, k: Value)
    requires ts != []
    ensures HasId(ts, k) <==> ("id" in ts[0] && IdOf(ts[0]) == k) || HasId(ts[1..], k)
  {
    if HasId(ts[1..], k) {
      var i :| 0 <= i < |ts[1..]| && "id" in ts[1..][i] && IdOf(ts[1..][i]) == k;
      assert ts[i + 1] == ts[1..][i];
    }
    if HasId(ts, k) && !("id" in ts[0] && IdOf(ts[0]) == k) {
      var i :| 0 <= i < |ts| && "id" in ts[i] && IdOf(ts[i]) == k;
      assert ts[1..][i - 1] == ts[i];
    }
  }

  /** The last record of an `id` in `ts` is, past the first, the last one in the rest. */
  lemma LastOfIdCons(ts: seq<Task>, i: int)
    requires LastOfId(ts, i)
    ensures i == 0 ==> !HasId(ts[1..], IdOf(ts[0]))
    ensures i > 0 ==> LastOfId(ts[1..], i - 1) && ts[1..][i - 1] == ts[i]
  {
    if i == 0 {
      forall j | 0 <= j < |ts[1..]| && "id" in ts[1..][j]
        ensures IdOf(ts[1..][j]) != IdOf(ts[0])
      {
        assert ts[1..][j] == ts[j + 1];
      }
    }
    if i > 0 {
      forall j | i - 1 < j < |ts[1..]| && "id" in ts[1..][j]
        ensures IdOf(ts[1..][j]) != IdOf(ts[1..][i - 1])
      {
        assert ts[1..][j] == ts[j + 1];
      }
    }
  }

  /** Inserting the first record, then the rest, reinserts them all. */
  lemma ReplayStep(acc: State, next: State, ts: seq<Task>, s: State)
    requires ts != [] && "id" in ts[0] && PutFacts(acc, IdOf(ts[0]), ts[0], next)
    requires Reinserted(next, ts[1..], s)
    ensures Reinserted(acc, ts, s)
  {
    PrefixOfPrefix(acc.order, next.order, s.order);
    ReplayStepKeys(acc, next, ts, s);
    ReplayStepLast(acc, next, ts, s);
  }

  /** A prefix of a prefix is a prefix. */
  lemma PrefixOfPrefix<T>(a: seq<T>, b: seq<T>, c: seq<T>)
    requires |a| <= |b| && b[..|a|] == a
    requires |b| <= |c| && c[..|b|] == b
    ensures |a| <= |c| && c[..|a|] == a
  {
    assert c[..|a|] == c[..|b|][..|a|];
  }

  /** `ReplayStep` for the keys and the records they keep. */
  lemma ReplayStepKeys(acc: State, next: State, ts: seq<Task>, s: State)
    requires ts != [] && "id" in ts[0] && PutFacts(acc, IdOf(ts[0]), ts[0], next)
    requires Reinserted(next, ts[1..], s)
    ensures forall k :: k in s.records <==> k in acc.records || HasId(ts, k)
    ensures forall k :: k in acc.records && !HasId(ts, k) ==> k in s.records && s.records[k] == acc.records[k]
  {
    forall k
      ensures k in s.records <==> k in acc.records || HasId(ts, k)
      ensures k in acc.records && !HasId(ts, k) ==> k in s.records && s.records[k] == acc.records[k]
    {
      HasIdCons(ts, k);
    }
  }

  /** `ReplayStep` for the last record of each `id`. */
  lemma ReplayStepLast(acc: State, next: State, ts: seq<Task>, s: State)
    requires ts != [] && "id" in ts[0] && PutFacts(acc, IdOf(ts[0]), ts[0], next)
    requires Reinserted(next, ts[1..], s)
    ensures forall i :: LastOfId(ts, i) ==> IdOf(ts[i]) in s.records && s.records[IdOf(ts[i])] == ts[i]
  {
    forall i | LastOfId(ts, i)
      ensures IdOf(ts[i]) in s.records && s.records[IdOf(ts[i])] == ts[i]
    {
      LastOfIdCons(ts, i);
    }
  }

  /** `ts.forEach(t => store.insert(t.id, t))`, starting from the store `acc`. */
  function Replay(acc: State, ts: seq<Task>): (s: State)
    requires acc.Valid()
    requires AllHaveIds(ts)
    ensures s.Valid()
    ensures Reinserted(acc, ts, s)
    ensures forall k :: k in s.records ==>
      (k in acc.records && s.records[k] == acc.records[k]) || s.records[k] in ts
    decreases |ts|
  {
    if ts == [] then
      assert acc.order[..|acc.order|] == acc.order;
      acc
    else
      var next := acc.Put(IdOf(ts[0]), ts[0]);
      var s := Replay(next, ts[1..]);
      PutHasFacts(acc, IdOf(ts[0]), ts[0]);
      ReplayStep(acc, next, ts, s);
      s
  }

  /** The keys of `order` whose records do not carry `tag`, in the same order. */
  function KeptKeys(order: seq<Value>, records: map<Value, Task>, tag: string): (ks: seq<Value>)
    requires forall k :: k in order ==> k in records
    ensures Subsequence(ks, order)
    ensures forall k :: k in ks <==> k in order && IncludesLabel(records[k], tag) == Some(false)
    ensures Distinct(order) ==> Distinct(ks)
  {
    if order == [] then []
    else
      var rest := KeptKeys(order[1..], records, tag);
      assert forall k :: k in order[1..] ==> k in order;
      assert Distinct(order) ==> Distinct(order[1..]) && order[0] !in order[1..];
      assert [order[0]] + order[1..] == order;
      if IncludesLabel(records[order[0]], tag) == Some(false) then
        FilterStep(order[0], order[1..], rest, true);
        [order[0]] + rest
      else
        FilterStep(order[0], order[1..], rest, false);
        assert [] + rest == rest;
        rest
  }

  /** The store with exactly the records that do not carry `tag`, in their old order. */
  function Survivors(s: State, tag: string): (t: State)
    requires s.Valid()
    ensures t.Valid()
    ensures Subsequence(t.order, s.order)
    ensures forall k :: k in t.records <==> k in s.records && IncludesLabel(s.records[k], tag) == Some(false)
    ensures forall k :: k in t.records ==> t.records[k] == s.records[k]
  {
    var ks := KeptKeys(s.order, s.records, tag);
    var m := Restrict(s.records, ks);
    DistinctCardinality(ks, m);
    Snapshot(ks, m)
  }

  /** A map whose keys are those of a duplicate-free sequence has as many entries as the sequence. */
  lemma {:induction false} DistinctCardinality<K(!new), V>(ks: seq<K>, m: map<K, V>)
    requires Distinct(ks)
    requires forall k :: k in m <==> k in ks
    ensures |m| == |ks|
  {
    if ks != [] {
      var m' := map k | k in m && k != ks[0] :: m[k];
      assert forall k :: k in m' <==> k in ks[1..];
      DistinctCardinality(ks[1..], m');
      assert m'.Keys + {ks[0]} == m.Keys;
    } else {
      assert m.Keys == {};
    }
  }

  /** Filtering the values of `order` is taking the values of the filtered order. */
  lemma {:induction false} KeptValues(order: seq<Value>, records: map<Value, Task>, tag: string)
    requires forall k :: k in order ==> k in records
    requires Kept(ValuesOf(order, records), tag).Some?
    ensures Kept(ValuesOf(order, records), tag).value == ValuesOf(KeptKeys(order, records, tag), records)
  {
    if order != [] {
      var vs := ValuesOf(order, records);
      assert vs[0] == records[order[0]] && vs[1..] == ValuesOf(order[1..], records);
      KeptValues(order[1..], records, tag);
    }
  }

  /**
   * Reinserting records under their own keys, none of them already
   * present, appends those keys in order and adds exactly those records.
   */
  lemma {:induction false} ReplayKeyed(acc: State, ks: seq<Value>, records: map<Value, Task>)
    requires acc.Valid() && Distinct(ks)
    requires forall k :: k in ks ==> k in records && "id" in records[k] && IdOf(records[k]) == k
    requires forall k :: k in ks ==> k !in acc.records
    ensures Replay(acc, ValuesOf(ks, records))
         == Snapshot(acc.order + ks, acc.records + Restrict(records, ks))
    decreases |ks|
  {
    var vs := ValuesOf(ks, records);
    if ks == [] {
      assert acc.order + ks == acc.order;
      assert acc.records + Restrict(records, ks) == acc.records;
    } else {
      var next := KeyedStep(acc, ks, records);
      ReplayCons(acc, vs);
      ReplayKeyed(next, ks[1..], records);
    }
  }

  /**
   * Inserting the first record under its key leaves a store to which the
   * rest of the keys can be added in the same way, with the same outcome.
   */
  lemma KeyedStep(acc: State, ks: seq<Value>, records: map<Value, Task>) returns (next: State)
    requires acc.Valid() && Distinct(ks) && ks != []
    requires forall k :: k in ks ==> k in records && "id" in records[k] && IdOf(records[k]) == k
    requires forall k :: k in ks ==> k !in acc.records
    ensures next == acc.Put(ks[0], records[ks[0]]) && next.Valid() && Distinct(ks[1..])
    ensures var vs := ValuesOf(ks, records);
      && AllHaveIds(vs) && vs != [] && next == acc.Put(IdOf(vs[0]), vs[0])
      && vs[1..] == ValuesOf(ks[1..], records)
    ensures forall k :: k in ks[1..] ==> k in records && "id" in records[k] && IdOf(records[k]) == k
    ensures forall k :: k in ks[1..] ==> k !in next.records
    ensures Snapshot(next.order + ks[1..], next.records + Restrict(records, ks[1..]))
         == Snapshot(acc.order + ks, acc.records + Restrict(records, ks))
  {
    next := acc.Put(ks[0], records[ks[0]]);
    var vs := ValuesOf(ks, records);
    ValuesOfCons(ks, records);
    forall i | 0 <= i < |vs|
      ensures "id" in vs[i]
    {
      assert ks[i] in ks;
    }
    assert Distinct(ks[1..]) && ks[0] !in ks[1..];
    assert forall k :: k in ks[1..] ==> k in ks;
    AppendFirst(acc.order, ks);
    RestrictCons(acc.records, ks, records);
  }

  /** `Replay` inserts the first record, then replays the rest. */
  lemma ReplayCons(acc: State, ts: seq<Task>)
    requires acc.Valid() && AllHaveIds(ts) && ts != []
    ensures AllHaveIds(ts[1..])
    ensures Replay(acc, ts) == Replay(acc.Put(IdOf(ts[0]), ts[0]), ts[1..])
  {
  }

  /** Nothing before a sequence, no entries beside a map. */
  lemma EmptyPrefix<K, V>(ks: seq<K>, m: map<K, V>)
    ensures [] + ks == ks && map[] + m == m
  {
  }

  /** Appending the first key, then the others, appends them all. */
  lemma AppendFirst<K>(order: seq<K>, ks: seq<K>)
    requires ks != []
    ensures (order + [ks[0]]) + ks[1..] == order + ks
  {
    assert ks == [ks[0]] + ks[1..];
  }

  /** The records of `records` under the keys `ks`. */
  function Restrict(records: map<Value, Task>, ks: seq<Value>): (m: map<Value, Task>)
    requires forall k :: k in ks ==> k in records
    ensures forall k :: k in m <==> k in ks
    ensures forall k :: k in m ==> m[k] == records[k]
  {
    map k | k in ks :: records[k]
  }

  /** Adding the first key's record, then the rest, adds them all. */
  lemma RestrictCons(base: map<Value, Task>, ks: seq<Value>, records: map<Value, Task>)
    requires ks != [] && forall k :: k in ks ==> k in records
    ensures base[ks[0] := records[ks[0]]] + Restrict(records, ks[1..]) == base + Restrict(records, ks)
  {
    assert forall k :: k in ks <==> k == ks[0] || k in ks[1..];
  }

  /**
   * While every record sits under its own `id`, the clear-and-reinsert of
   * delete-by-label leaves exactly the records without the label, under
   * their old keys and in their old order.
   */
  lemma DeleteByLabelKeepsSurvivors(s: State, tag: string)
    requires s.Valid() && Keyed(s)
    requires LabelTestAnswers(s, tag)
    ensures HasIds(s) && Rebuilt(s, tag) == Survivors(s, tag)
  {
    var ks := KeptKeys(s.order, s.records, tag);
    assert s.Values() == ValuesOf(s.order, s.records);
    KeptValues(s.order, s.records, tag);
    ReplayKeyed(Empty(), ks, s.records);
    EmptyPrefix(ks, Restrict(s.records, ks));
  }

  /** DELETE /tasks/labels/:label */
  method DeleteByLabel(store: TaskStore, tag: string) returns (r: Response)
    requires store.Valid() && HasIds(store.State())
    modifies store
    ensures store.Valid() && HasIds(store.State())
    ensures var kept := Kept(old(store.State()).Values(), tag);
      && (kept.None? ==> r == ServerError && store.State() == old(store.State()))
      && (kept.Some? && |kept.value| == |old(store.records)| ==>
            r == NotFound(MissingLabel(tag)) && store.State() == old(store.State()))
      && (kept.Some? && |kept.value| != |old(store.records)| ==>
            store.State() == Rebuilt(old(store.State()), tag) && r == Many(store.State().Values()))
    ensures r.NotFound? <==> forall t :: t in old(store.State()).Values() ==> IncludesLabel(t, tag) == Some(false)
    ensures r.Many? ==> forall t :: t in r.tasks ==> IncludesLabel(t, tag) == Some(false)
    ensures r.Many? && Keyed(old(store.State())) ==> store.State() == Survivors(old(store.State()), tag)
  {
    var values := store.Values();
    var kept := Kept(values, tag);
    if kept.None? {
      return ServerError;
    }
    var size := store.Size();
    if |kept.value| == size {
      return NotFound(MissingLabel(tag));
    }
    ghost var before := store.State();
    KeptAnswers(before, tag);
    KeptHaveIds(before, tag);
    store.Clear();
    ReinsertAll(store, kept.value);
    RebuiltLacksLabel(before, tag);
    var remaining := store.Values();
    r := Many(remaining);
    if Keyed(before) {
      DeleteByLabelKeepsSurvivors(before, tag);
    }
  }

  /** `survivors.forEach(t => store.insert(t.id, t))` */
  method ReinsertAll(store: TaskStore, survivors: seq<Task>)
    requires store.Valid() && AllHaveIds(survivors)
    modifies store
    ensures store.Valid() && store.State() == Replay(old(store.State()), survivors)
  {
    ghost var target := Replay(store.State(), survivors);
    var i := 0;
    while i < |survivors|
      invariant 0 <= i <= |survivors|
      invariant store.Valid()
      invariant AllHaveIds(survivors[i..])
      invariant Replay(store.State(), survivors[i..]) == target
    {
      ReinsertStep(store.State(), survivors, i);
      store.Insert(IdOf(survivors[i]), survivors[i]);
      i := i + 1;
    }
    SuffixStep(survivors, i);
  }

  /** One turn of the `forEach`: inserting `survivors[i]` leaves the rest to replay. */
  lemma ReinsertStep(prev: State, survivors: seq<Task>, i: nat)
    requires prev.Valid() && i < |survivors| && AllHaveIds(survivors[i..])
    ensures "id" in survivors[i] && AllHaveIds(survivors[i + 1..])
    ensures Replay(prev.Put(IdOf(survivors[i]), survivors[i]), survivors[i + 1..]) == Replay(prev, survivors[i..])
  {
    SuffixStep(survivors, i);
    ReplayCons(prev, survivors[i..]);
  }

  /** One step along a sequence: the suffix from `i` is `s[i]` followed by the suffix from `i + 1`. */
  lemma SuffixStep<T>(s: seq<T>, i: nat)
    requires i <= |s|
    ensures i < |s| ==> s[i..][0] == s[i] && s[i..][1..] == s[i + 1..]
    ensures i == |s| ==> s[i..] == []
  {
  }

  // ------------------------------------------------------------ delete all

  /** DELETE /tasks: afterwards the store is empty whatever it held, so a second call changes nothing. */
  method DeleteAllTasks(store: TaskStore) returns (r: Response)
    modifies store
    ensures store.Valid() && store.State() == Empty() && store.State().Values() == []
    ensures r == Text(AllDeleted)
  {
    store.Clear();
    r := Text(AllDeleted);
  }
}
