/**
 * A task record and the pure parts of the create and update handlers: the
 * input checks of create, the object spreads that build a new record and
 * merge an update into an old one, and the conversion of the host clock to
 * a `Date`.
 */
module Tasks {

  import opened Optional
  import opened Json

  /**
   * A stored record. It is the request body spread into an object, so
   * besides `id`, `description`, `task`, `priority`, `labels`, `createdAt`
   * and `updatedAt` it keeps whatever other fields the client sent.
   */
  type Task = Fields

  const FieldsMessage := "Bad request: Check data types and required fields!"
  const LabelsMessage := "Bad request: Labels must be an array of strings!"

  /** Host clock units per millisecond: the clock counts nanoseconds. */
  const NanosPerMilli := 1_000_000

  /** A present string other than `""`. */
  predicate NonEmptyText(v: Option<Value>) {
    v.Some? && v.value.Str? && v.value.s != ""
  }

  /** A present number other than `0`. */
  predicate NonZeroNumber(v: Option<Value>) {
    v.Some? && v.value.Num? && v.value.n != 0
  }

  /** A present array all of whose elements are strings (possibly none). */
  predicate TextArray(v: Option<Value>) {
    v.Some? && v.value.Arr? && forall x :: x in v.value.items ==> x.Str?
  }

  /**
   * The two checks of the create handler, in their order: `None` when the
   * body is accepted, otherwise the message of the first check that fails.
   * A priority of `0` is refused, being falsy.
   */
  function CreateError(body: Fields): (err: Option<string>)
    ensures err.None? <==>
      && NonEmptyText(Get(body, "description"))
      && NonEmptyText(Get(body, "task"))
      && NonZeroNumber(Get(body, "priority"))
      && TextArray(Get(body, "labels"))
    ensures err == Some(FieldsMessage) <==>
      !(NonEmptyText(Get(body, "description")) && NonEmptyText(Get(body, "task")) && NonZeroNumber(Get(body, "priority")))
    ensures err == Some(LabelsMessage) <==>
      && NonEmptyText(Get(body, "description"))
      && NonEmptyText(Get(body, "task"))
      && NonZeroNumber(Get(body, "priority"))
      && !TextArray(Get(body, "labels"))
  {
    var description, task, priority, labels :=
      Get(body, "description"), Get(body, "task"), Get(body, "priority"), Get(body, "labels");
    if !Truthy(description) || !Truthy(task) || !Truthy(priority)
       || !IsString(description) || !IsString(task) || !IsNumber(priority)
    then
      Some(FieldsMessage)
    else if !IsArray(labels) || exists i :: 0 <= i < |labels.value.items| && !labels.value.items[i].Str?
    then
      Some(LabelsMessage)
    else
      None
  }

  /**
   * `{ id, createdAt, ...body }`: the generated `id` and the creation time
   * are defaults that any field of the same name in the body overrides.
   */
  function NewTask(body: Fields, id: string, now: Value): (t: Task)
    ensures t.Keys == body.Keys + {"id", "createdAt"}
    ensures forall f :: f in body ==> t[f] == body[f]
    ensures "id" !in body ==> t["id"] == Str(id)
    ensures "createdAt" !in body ==> t["createdAt"] == now
  {
    map["id" := Str(id), "createdAt" := now] + body
  }

  /**
   * `{ ...task, ...body, updatedAt: now }`: every field the body supplies
   * replaces the stored one (an `id` included), every other field keeps its
   * value, and `updatedAt` is the current time whatever the body says.
   */
  function Merged(task: Task, body: Fields, now: Value): (u: Task)
    ensures u.Keys == task.Keys + body.Keys + {"updatedAt"}
    ensures u["updatedAt"] == now
    ensures forall f :: f in body && f != "updatedAt" ==> u[f] == body[f]
    ensures forall f :: f in task && f !in body && f != "updatedAt" ==> u[f] == task[f]
  {
    task + body + map["updatedAt" := now]
  }

  /**
   * `getCurrentDate`: the host clock reading, a count of nanoseconds, is
   * divided by 10^6 and becomes a `Date`, which keeps whole milliseconds.
   * The source first converts the reading to a JavaScript number (a
   * double) and divides in floating point; this model divides the exact
   * integer, so it leaves out the rounding that conversion can bring.
   */
  function CurrentDate(nanos: nat): (d: Value)
    ensures d.Date? && d.millis >= 0
    ensures d.millis * NanosPerMilli <= nanos < (d.millis + 1) * NanosPerMilli
  {
    Date(nanos / NanosPerMilli)
  }
}
