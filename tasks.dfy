/**
 * The task record and the request body that creates or updates one.
 */
module Tasks {
  import opened Optional

  /** A task; a title or description of None is a Java null. */
  datatype Task = Task(id: int, title: Option<string>, description: Option<string>, completed: bool)

  /**
   * The JSON body of a create or update request, typed. For each key, None
   * means the key is absent; for the text keys Some(None) means the key is
   * present with a null value. A value of the wrong type cannot be written.
   */
  datatype Payload = Payload(title: Option<Option<string>>, description: Option<Option<string>>, completed: Option<bool>)

  /** The body `{}`. */
  const EmptyPayload := Payload(None, None, None)

  /** A task with no title, no description, not completed. */
  function Blank(id: int): Task {
    Task(id, None, None, false)
  }

  /**
   * The task that a create request builds: an absent or null text key reads
   * as null, and `completed` is false unless the key is present.
   */
  function NewTask(id: int, data: Payload): (t: Task)
    ensures t.id == id
    ensures data.title.None? ==> t.title.None?
    ensures data.description.None? ==> t.description.None?
    ensures data.completed.None? ==> !t.completed
  {
    Task(id, Flatten(data.title), Flatten(data.description), data.completed.GetOr(false))
  }

  /**
   * The task after an update: each field whose key is present takes the
   * payload's value, every other field (and the id) keeps its old value.
   */
  function Patch(t: Task, data: Payload): (r: Task)
    ensures r.id == t.id
    ensures data.title.Some? ==> r.title == data.title.value
    ensures data.description.Some? ==> r.description == data.description.value
    ensures data.completed.Some? ==> r.completed == data.completed.value
    ensures data.title.None? ==> r.title == t.title
    ensures data.description.None? ==> r.description == t.description
    ensures data.completed.None? ==> r.completed == t.completed
  {
    var t1 := if data.title.Some? then t.(title := data.title.value) else t;
    var t2 := if data.description.Some? then t1.(description := data.description.value) else t1;
    if data.completed.Some? then t2.(completed := data.completed.value) else t2
  }

  /** An update with an empty body changes nothing. */
  lemma PatchEmpty(t: Task)
    ensures Patch(t, EmptyPayload) == t
  {
  }

  /** Sending the same update twice has the effect of sending it once. */
  lemma PatchIdempotent(t: Task, data: Payload)
    ensures Patch(Patch(t, data), data) == Patch(t, data)
  {
  }

  /** Creating a task is updating a blank task with the same body. */
  lemma NewTaskIsPatchOfBlank(id: int, data: Payload)
    ensures NewTask(id, data) == Patch(Blank(id), data)
  {
  }
}
