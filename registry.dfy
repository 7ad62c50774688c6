/**
 * The in-memory task registry behind the `/api/tasks` routes: a list of tasks
 * kept in insertion order and a counter that hands out ids.
 */
module Registry {
  import opened Optional
  import opened Tasks
  import Decimal

  // ---------------------------------------------------------------------------
  // The list and what stays true of it
  // ---------------------------------------------------------------------------

  /** No two tasks in the list share an id. */
  predicate DistinctIds(ts: seq<Task>) {
    forall i, j :: 0 <= i < j < |ts| ==> ts[i].id != ts[j].id
  }

  /** Every id in the list was handed out by a counter now at `next`. */
  predicate IdsBelow(ts: seq<Task>, next: int) {
    forall i :: 0 <= i < |ts| ==> 1 <= ts[i].id < next
  }

  /** Position of the first task with id `id`, as `stream().filter(..).findFirst()` finds it. */
  function FirstIndex(ts: seq<Task>, id: int): (r: Option<nat>)
    ensures r.None? <==> forall i :: 0 <= i < |ts| ==> ts[i].id != id
    ensures r.Some? ==> r.value < |ts| && ts[r.value].id == id
    ensures r.Some? ==> forall j :: 0 <= j < r.value ==> ts[j].id != id
  {
    if ts == [] then None
    else if ts[0].id == id then Some(0)
    else match FirstIndex(ts[1..], id)
      case None => None
      case Some(k) => Some(k + 1)
  }

  /** With distinct ids, the first match is the only match. */
  lemma FirstIndexUnique(ts: seq<Task>, id: int, i: nat)
    requires DistinctIds(ts)
    ensures FirstIndex(ts, id) == Some(i) <==> i < |ts| && ts[i].id == id
  {
  }

  /** The list with every task whose id is `id` removed, survivors in their original order. */
  function RemoveId(ts: seq<Task>, id: int): (r: seq<Task>)
    ensures |r| <= |ts|
    ensures forall t :: t in r <==> t in ts && t.id != id
  {
    if ts == [] then []
    else if ts[0].id == id then RemoveId(ts[1..], id)
    else [ts[0]] + RemoveId(ts[1..], id)
  }

  /** Removal works piecewise, so the survivors keep their relative order. */
  lemma {:induction false} RemoveIdAppend(a: seq<Task>, b: seq<Task>, id: int)
    ensures RemoveId(a + b, id) == RemoveId(a, id) + RemoveId(b, id)
  {
    if a == [] {
      assert a + b == b;
    } else {
      assert (a + b)[1..] == a[1..] + b;
      RemoveIdAppend(a[1..], b, id);
    }
  }

  /** Removing an id that no task has leaves the list as it was. */
  lemma {:induction false} RemoveIdAbsent(ts: seq<Task>, id: int)
    requires forall i :: 0 <= i < |ts| ==> ts[i].id != id
    ensures RemoveId(ts, id) == ts
  {
    if ts != [] {
      RemoveIdAbsent(ts[1..], id);
    }
  }

  /** With distinct ids, removing the id of the task at `k` removes that one task. */
  lemma RemoveIdExactlyOne(ts: seq<Task>, id: int, k: nat)
    requires DistinctIds(ts)
    requires k < |ts| && ts[k].id == id
    ensures RemoveId(ts, id) == ts[..k] + ts[k + 1..]
  {
    assert ts == ts[..k] + ([ts[k]] + ts[k + 1..]);
    RemoveIdAppend(ts[..k], [ts[k]] + ts[k + 1..], id);
    RemoveIdAppend([ts[k]], ts[k + 1..], id);
    RemoveIdAbsent(ts[..k], id);
    RemoveIdAbsent(ts[k + 1..], id);
    assert RemoveId([ts[k]], id) == [];
  }

  /** Every survivor of a removal comes from the original list. */
  lemma RemoveIdFrom(ts: seq<Task>, id: int, j: nat)
    requires j < |RemoveId(ts, id)|
    ensures exists m :: 0 <= m < |ts| && ts[m] == RemoveId(ts, id)[j]
  {
  }

  /** Removal keeps ids distinct and below the counter. */
  lemma {:induction false} RemoveIdKeepsIds(ts: seq<Task>, id: int, next: int)
    requires DistinctIds(ts) && IdsBelow(ts, next)
    ensures DistinctIds(RemoveId(ts, id)) && IdsBelow(RemoveId(ts, id), next)
  {
    if ts != [] {
      var tail := ts[1..];
      RemoveIdKeepsIds(tail, id, next);
      var rest := RemoveId(tail, id);
      if ts[0].id != id {
        var r := [ts[0]] + rest;
        forall j | 0 <= j < |rest| ensures rest[j].id != ts[0].id {
          RemoveIdFrom(tail, id, j);
          var m :| 0 <= m < |tail| && tail[m] == rest[j];
          assert ts[m + 1] == rest[j];
        }
        assert DistinctIds(r);
        assert IdsBelow(r, next);
      }
    }
  }

  /** The confirmation text that a delete request always answers with. */
  function DeleteMessage(id: int): (m: string)
    ensures |m| == 22 + |Decimal.IntToString(id)|
    ensures m[..13] == "Task with ID " && m[|m| - 9..] == " deleted."
    ensures m[13..|m| - 9] == Decimal.IntToString(id)
  {
    "Task with ID " + Decimal.IntToString(id) + " deleted."
  }

  /** The confirmation names exactly the id it was asked to delete. */
  lemma DeleteMessageNamesId(id: int)
    ensures var m := DeleteMessage(id); Decimal.ParseInt(m[13..|m| - 9]) == Some(id)
  {
    Decimal.ParseIntToString(id);
  }

  // ---------------------------------------------------------------------------
  // The registry as a value, and the requests that change it
  // ---------------------------------------------------------------------------

  datatype State = State(tasks: seq<Task>, nextId: int)

  /** The invariant every operation keeps. */
  predicate WellFormed(s: State) {
    1 <= s.nextId && DistinctIds(s.tasks) && IdsBelow(s.tasks, s.nextId)
  }

  /** The three sample tasks added at start-up; the counter has passed them. */
  function Seed(): (s: State)
    ensures WellFormed(s)
    ensures |s.tasks| == 3 && s.nextId == 4
    ensures forall i :: 0 <= i < 3 ==> s.tasks[i].id == i + 1
    ensures forall i :: 0 <= i < 3 ==> (s.tasks[i].completed <==> i == 2)
  {
    State([Task(1, Some("Learn Spring Boot"), Some("Complete first REST API tutorial"), false),
           Task(2, Some("Build Portfolio"), Some("Create GitHub repository with projects"), false),
           Task(3, Some("Practice Java"), Some("Review OOP concepts and collections"), true)],
          4)
  }

  /** The requests that change the registry (listing and getting do not). */
  datatype Request = Create(data: Payload) | Update(id: int, data: Payload) | Delete(id: int)

  /**
   * The effect of one request: a create appends one task under the counter
   * and takes one id; an update keeps the length, every id, and every task
   * with another id; a delete keeps exactly the tasks with another id.
   */
  function Step(s: State, req: Request): (r: State)
    ensures r.nextId == s.nextId + (if req.Create? then 1 else 0)
    ensures req.Create? ==> |r.tasks| == |s.tasks| + 1 && r.tasks[..|s.tasks|] == s.tasks &&
                            r.tasks[|s.tasks|].id == s.nextId
    ensures req.Update? ==> |r.tasks| == |s.tasks| &&
                            forall i :: 0 <= i < |s.tasks| ==> r.tasks[i].id == s.tasks[i].id &&
                                                               (s.tasks[i].id != req.id ==> r.tasks[i] == s.tasks[i])
    ensures req.Create? ==> r.tasks[|s.tasks|] == NewTask(s.nextId, req.data)
    ensures req.Update? && FirstIndex(s.tasks, req.id).Some? ==>
              r.tasks == s.tasks[FirstIndex(s.tasks, req.id).value := Patch(s.tasks[FirstIndex(s.tasks, req.id).value], req.data)]
    ensures req.Delete? ==> forall t :: t in r.tasks <==> t in s.tasks && t.id != req.id
    ensures req.Delete? ==> r.tasks == RemoveId(s.tasks, req.id)
  {
    match req
    case Create(data) => State(s.tasks + [NewTask(s.nextId, data)], s.nextId + 1)
    case Update(id, data) =>
      (match FirstIndex(s.tasks, id)
       case None => s
       case Some(i) => State(s.tasks[i := Patch(s.tasks[i], data)], s.nextId))
    case Delete(id) => State(RemoveId(s.tasks, id), s.nextId)
  }

  /** Every request keeps the invariant and never winds the counter back. */
  lemma StepKeepsWellFormed(s: State, req: Request)
    requires WellFormed(s)
    ensures WellFormed(Step(s, req))
    ensures Step(s, req).nextId >= s.nextId
  {
    match req
    case Create(data) =>
    case Update(id, data) =>
    case Delete(id) => RemoveIdKeepsIds(s.tasks, id, s.nextId);
  }

  /** An id below the counter that no task has stays off the list for one request. */
  lemma StepKeepsAbsent(s: State, req: Request, x: int)
    requires x < s.nextId
    requires forall t :: t in s.tasks ==> t.id != x
    ensures x < Step(s, req).nextId
    ensures forall t :: t in Step(s, req).tasks ==> t.id != x
  {
  }

  /** The state after a series of requests, handled one after another. */
  function Run(s: State, reqs: seq<Request>): State
    decreases |reqs|
  {
    if reqs == [] then s else Run(Step(s, reqs[0]), reqs[1..])
  }

  /** The ids that the create requests of a series are given, in order. */
  function Issued(s: State, reqs: seq<Request>): seq<int>
    decreases |reqs|
  {
    if reqs == [] then []
    else (if reqs[0].Create? then [s.nextId] else []) + Issued(Step(s, reqs[0]), reqs[1..])
  }

  lemma {:induction false} RunKeepsWellFormed(s: State, reqs: seq<Request>)
    requires WellFormed(s)
    ensures WellFormed(Run(s, reqs))
    decreases |reqs|
  {
    if reqs != [] {
      StepKeepsWellFormed(s, reqs[0]);
      RunKeepsWellFormed(Step(s, reqs[0]), reqs[1..]);
    }
  }

  /**
   * The counter only moves forward, by one per create request, and the ids
   * handed out are strictly increasing, all at or above the starting counter.
   */
  lemma {:induction false} IssuedFresh(s: State, reqs: seq<Request>)
    ensures Run(s, reqs).nextId == s.nextId + |Issued(s, reqs)|
    ensures forall k :: 0 <= k < |Issued(s, reqs)| ==> s.nextId <= Issued(s, reqs)[k] < Run(s, reqs).nextId
    ensures forall j, k :: 0 <= j < k < |Issued(s, reqs)| ==> Issued(s, reqs)[j] < Issued(s, reqs)[k]
    decreases |reqs|
  {
    if reqs != [] {
      IssuedFresh(Step(s, reqs[0]), reqs[1..]);
    }
  }

  /** No create request ever hands out an id that a task already had. */
  lemma NeverReused(s: State, reqs: seq<Request>, t: Task)
    requires WellFormed(s) && t in s.tasks
    ensures t.id !in Issued(s, reqs)
  {
    IssuedFresh(s, reqs);
  }

  /** Once an id is off the list, no later series of requests brings it back. */
  lemma {:induction false} AbsentStaysAbsent(s: State, reqs: seq<Request>, x: int)
    requires x < s.nextId
    requires forall t :: t in s.tasks ==> t.id != x
    ensures forall t :: t in Run(s, reqs).tasks ==> t.id != x
    decreases |reqs|
  {
    if reqs != [] {
      StepKeepsAbsent(s, reqs[0], x);
      AbsentStaysAbsent(Step(s, reqs[0]), reqs[1..], x);
    }
  }

  /** A deleted id is gone for good: whatever follows, no task has it again. */
  lemma DeletedNeverReturns(s: State, id: int, reqs: seq<Request>)
    requires WellFormed(s)
    requires exists t :: t in s.tasks && t.id == id
    ensures forall t :: t in Run(Step(s, Delete(id)), reqs).tasks ==> t.id != id
  {
    AbsentStaysAbsent(Step(s, Delete(id)), reqs, id);
  }

  // ---------------------------------------------------------------------------
  // The controller object
  // ---------------------------------------------------------------------------

  class TaskController {
    var tasks: seq<Task>
    var nextId: int

    function Snapshot(): State
      reads this
    {
      State(tasks, nextId)
    }

    ghost predicate Valid()
      reads this
    {
      WellFormed(Snapshot())
    }

    /** Starts at id 1 and adds the three sample tasks, taking one id each. */
    constructor ()
      ensures Valid()
      ensures Snapshot() == Seed()
    {
      tasks := [];
      nextId := 1;
      new;
      tasks := tasks + [Task(nextId, Some("Learn Spring Boot"), Some("Complete first REST API tutorial"), false)];
      nextId := nextId + 1;
      tasks := tasks + [Task(nextId, Some("Build Portfolio"), Some("Create GitHub repository with projects"), false)];
      nextId := nextId + 1;
      tasks := tasks + [Task(nextId, Some("Practice Java"), Some("Review OOP concepts and collections"), true)];
      nextId := nextId + 1;
    }

    /** GET /api/tasks: the whole list, in insertion order. */
    function GetAllTasks(): (r: seq<Task>)
      reads this
      ensures |r| == |tasks| && forall i :: 0 <= i < |r| ==> r[i] == tasks[i]
      ensures Valid() ==> DistinctIds(r)
    {
      tasks
    }

    /** GET /api/tasks/{id}: the first task with that id, or null. */
    function GetTaskById(id: int): (r: Option<Task>)
      reads this
      ensures r.None? <==> forall i :: 0 <= i < |tasks| ==> tasks[i].id != id
      ensures r.Some? ==> exists i :: 0 <= i < |tasks| && tasks[i] == r.value && r.value.id == id &&
                                      forall j :: 0 <= j < i ==> tasks[j].id != id
    {
      match FirstIndex(tasks, id)
      case None => None
      case Some(i) => Some(tasks[i])
    }

    /** POST /api/tasks: appends a task built from the body under the next id. */
    method CreateTask(data: Payload) returns (t: Task)
      requires Valid()
      modifies this
      ensures Valid()
      ensures t == NewTask(old(nextId), data)
      ensures tasks == old(tasks) + [t]
      ensures nextId == old(nextId) + 1
      ensures forall u :: u in old(tasks) ==> u.id < t.id
      ensures Snapshot() == Step(old(Snapshot()), Create(data))
    {
      var title := Flatten(data.title);
      var description := Flatten(data.description);
      var completed := if data.completed.Some? then data.completed.value else false;
      t := Task(nextId, title, description, completed);
      nextId := nextId + 1;
      tasks := tasks + [t];
    }

    /**
     * PUT /api/tasks/{id}: sets, on the first task with that id, each field
     * whose key is present, and answers with that task; null when none has it.
     */
    method UpdateTask(id: int, data: Payload) returns (r: Option<Task>)
      requires Valid()
      modifies this
      ensures Valid()
      ensures nextId == old(nextId) && |tasks| == |old(tasks)|
      ensures r.None? <==> forall i :: 0 <= i < |old(tasks)| ==> old(tasks)[i].id != id
      ensures r.None? ==> tasks == old(tasks)
      ensures r.Some? ==> exists i :: 0 <= i < |old(tasks)| && old(tasks)[i].id == id &&
                                      r.value == Patch(old(tasks)[i], data) && tasks == old(tasks)[i := r.value]
      ensures forall i :: 0 <= i < |tasks| && tasks[i].id != id ==> tasks[i] == old(tasks)[i]
      ensures Snapshot() == Step(old(Snapshot()), Update(id, data))
    {
      var found := FirstIndex(tasks, id);
      if found.None? {
        return None;
      }
      var i := found.value;
      var task := tasks[i];
      if data.title.Some? {
        task := task.(title := data.title.value);
      }
      if data.description.Some? {
        task := task.(description := data.description.value);
      }
      if data.completed.Some? {
        task := task.(completed := data.completed.value);
      }
      tasks := tasks[i := task];
      r := Some(task);
    }

    /** DELETE /api/tasks/{id}: drops every task with that id and confirms, found or not. */
    method DeleteTask(id: int) returns (msg: string)
      requires Valid()
      modifies this
      ensures Valid()
      ensures tasks == RemoveId(old(tasks), id) && nextId == old(nextId)
      ensures forall t :: t in tasks <==> t in old(tasks) && t.id != id
      ensures (forall i :: 0 <= i < |old(tasks)| ==> old(tasks)[i].id != id) ==> tasks == old(tasks)
      ensures msg == DeleteMessage(id)
      ensures Snapshot() == Step(old(Snapshot()), Delete(id))
    {
      RemoveIdKeepsIds(tasks, id, nextId);
      if forall i :: 0 <= i < |tasks| ==> tasks[i].id != id {
        RemoveIdAbsent(tasks, id);
      }
      tasks := RemoveId(tasks, id);
      msg := DeleteMessage(id);
    }
  }
}
