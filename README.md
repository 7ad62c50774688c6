# In-memory task registry of mi-primera-api

This project models `TaskController`, the REST controller behind `/api/tasks`.
It keeps an ordered list of tasks in memory, plus a `nextId` counter that hands
out ids. At start-up it seeds three sample tasks. Requests can list the tasks,
get one by id, create one, update the fields given in the body, and delete by id.

Layout:

- `option.dfy` (module `Optional`): `Option`, which stands for a Java reference
  that may be null.
- `decimal.dfy` (module `Decimal`): the decimal text of a `Long` as it appears in a
  string concatenation, and a parser that reads it back. The parser exists
  only to state the round trip.
- `tasks.dfy` (module `Tasks`): the `Task` record and a typed request body
  `Payload`. `NewTask` is the task a create request builds. `Patch` is the
  effect of an update on one task.
- `registry.dfy` (module `Registry`):
  - the functions over the list: first match, remove-all-matching;
  - the invariant that ids are distinct and below the counter;
  - a value-level `State` with `Step`/`Run` over a series of requests, used to
    state that ids are never reused;
  - the class `TaskController`, with fields `tasks` and `nextId` and one member
    per controller method. Each state-changing method states its new state and
    also that it equals `Step` applied to the old state.

The request body is a `Map<String,Object>` in the source. Here it is a record
with one optional entry per key:
- `None` means the key is absent.
- For `title` and `description`, `Some(None)` means the key is present with a
  JSON null. An update then sets the field to null (`containsKey` is true and
  the cast of null succeeds).
- Create reads absent and null alike, as null.

Update changes the task object inside the list through setters. Here that is
a replacement of the list element at the first matching index. The method
body still performs the setters one at a time.

## Model

| member | source | states |
|---|---|---|
| Optional.Flatten | mi-primera-api/src/main/java/com/ejemplo/mi_primera_api/TaskController.java:39-40 | reading a key yields a value exactly when the key is present with a non-null value, and that value is the key's own; absent and null both read as null |
| Decimal.NatToString | mi-primera-api/src/main/java/com/ejemplo/mi_primera_api/TaskController.java:70 | the rendering of a non-negative id is a non-empty string of decimal digits that starts with '0' only for zero |
| Decimal.IntToString | mi-primera-api/src/main/java/com/ejemplo/mi_primera_api/TaskController.java:70 | the rendering of an id starts with '-' exactly when the id is negative. After the optional '-' comes a non-empty run of decimal digits, which starts with '0' only for zero (the shortest form, as `Long.toString` gives) |
| Decimal.ParseNatToString | mi-primera-api/src/main/java/com/ejemplo/mi_primera_api/TaskController.java:70 | the digits of a natural number read back as that number |
| Decimal.ParseIntToString | mi-primera-api/src/main/java/com/ejemplo/mi_primera_api/TaskController.java:70 | the rendering of any id, negative included, reads back as that id |
| Decimal.IntToStringInjective | mi-primera-api/src/main/java/com/ejemplo/mi_primera_api/TaskController.java:70 | two different ids never render to the same text |
| Tasks.NewTask | mi-primera-api/src/main/java/com/ejemplo/mi_primera_api/TaskController.java:39-43 | a created task carries the given id; an absent title or description becomes null; an absent `completed` becomes false |
| Tasks.Patch | mi-primera-api/src/main/java/com/ejemplo/mi_primera_api/TaskController.java:53-61 | an update keeps the id, sets each field whose key is present to the body's value for that key (null included), and leaves each field whose key is absent as it was |
| Tasks.PatchEmpty | mi-primera-api/src/main/java/com/ejemplo/mi_primera_api/TaskController.java:53-61 | an update with an empty body leaves the task unchanged |
| Tasks.PatchIdempotent | mi-primera-api/src/main/java/com/ejemplo/mi_primera_api/TaskController.java:53-61 | applying the same update twice is the same as applying it once |
| Tasks.NewTaskIsPatchOfBlank | mi-primera-api/src/main/java/com/ejemplo/mi_primera_api/TaskController.java:39-61 | creating from a body is the same as updating a blank task (null title and description, not completed) with that body |
| Registry.FirstIndex | mi-primera-api/src/main/java/com/ejemplo/mi_primera_api/TaskController.java:30-33 | no result exactly when no task has the id; otherwise the index of a task with the id and no earlier task has it (first match in list order) |
| Registry.FirstIndexUnique | mi-primera-api/src/main/java/com/ejemplo/mi_primera_api/TaskController.java:30-33 | when ids are distinct, the first match is found at index i exactly when the task at i has the id |
| Registry.RemoveId | mi-primera-api/src/main/java/com/ejemplo/mi_primera_api/TaskController.java:69 | a task survives removal exactly when it was in the list and its id differs; the list never grows |
| Registry.RemoveIdAppend | mi-primera-api/src/main/java/com/ejemplo/mi_primera_api/TaskController.java:69 | removal distributes over concatenation, so survivors keep their relative order |
| Registry.RemoveIdAbsent | mi-primera-api/src/main/java/com/ejemplo/mi_primera_api/TaskController.java:69 | removing an id that no task has leaves the list identical |
| Registry.RemoveIdExactlyOne | mi-primera-api/src/main/java/com/ejemplo/mi_primera_api/TaskController.java:69 | with distinct ids, deleting the id of the task at k yields the list with that one element cut out |
| Registry.RemoveIdKeepsIds | mi-primera-api/src/main/java/com/ejemplo/mi_primera_api/TaskController.java:69 | removal keeps ids pairwise distinct and below the counter |
| Registry.DeleteMessage | mi-primera-api/src/main/java/com/ejemplo/mi_primera_api/TaskController.java:70 | the confirmation is "Task with ID ", then the id's decimal text, then " deleted.", and nothing else |
| Registry.DeleteMessageNamesId | mi-primera-api/src/main/java/com/ejemplo/mi_primera_api/TaskController.java:70 | the id's text inside the confirmation reads back as the requested id |
| Registry.Seed | mi-primera-api/src/main/java/com/ejemplo/mi_primera_api/TaskController.java:12-19 | the seeded registry holds three tasks with ids 1, 2, 3 in that order, only the third completed, the counter at 4, and satisfies the invariant |
| Registry.Step | mi-primera-api/src/main/java/com/ejemplo/mi_primera_api/TaskController.java:43-69 | a create appends exactly the task built from the body under the counter, keeps the earlier tasks as a prefix and raises the counter by one. An update on a present id replaces the first matching task with its patch. It keeps the length, every id, every task with another id, and the counter. A delete leaves exactly the removal result: the tasks with another id, in their original order. The counter is kept |
| Registry.StepKeepsWellFormed | mi-primera-api/src/main/java/com/ejemplo/mi_primera_api/TaskController.java:43-69 | create, update and delete each keep ids distinct and below the counter, and never move the counter back |
| Registry.StepKeepsAbsent | mi-primera-api/src/main/java/com/ejemplo/mi_primera_api/TaskController.java:43-69 | an id below the counter that no task has is still absent after any one request |
| Registry.RunKeepsWellFormed | mi-primera-api/src/main/java/com/ejemplo/mi_primera_api/TaskController.java:43-69 | the invariant holds after any series of requests |
| Registry.IssuedFresh | mi-primera-api/src/main/java/com/ejemplo/mi_primera_api/TaskController.java:43 | over any series of requests the counter rises by exactly one per create; the ids created are strictly increasing and lie between the starting and final counter |
| Registry.NeverReused | mi-primera-api/src/main/java/com/ejemplo/mi_primera_api/TaskController.java:43 | no later create hands out an id that a task in the registry already has |
| Registry.AbsentStaysAbsent | mi-primera-api/src/main/java/com/ejemplo/mi_primera_api/TaskController.java:43-69 | an already-issued id that no task has stays absent whatever series of requests follows |
| Registry.DeletedNeverReturns | mi-primera-api/src/main/java/com/ejemplo/mi_primera_api/TaskController.java:69 | after deleting an id that existed, no series of later requests brings a task with that id back |
| Registry.TaskController.constructor | mi-primera-api/src/main/java/com/ejemplo/mi_primera_api/TaskController.java:15-19 | the new controller is in the seeded state and satisfies the invariant |
| Registry.TaskController.GetAllTasks | mi-primera-api/src/main/java/com/ejemplo/mi_primera_api/TaskController.java:23-25 | returns every task in list order; under the invariant their ids are distinct |
| Registry.TaskController.GetTaskById | mi-primera-api/src/main/java/com/ejemplo/mi_primera_api/TaskController.java:29-34 | null exactly when no task has the id; otherwise the first task in list order with that id; reads and changes nothing else |
| Registry.TaskController.CreateTask | mi-primera-api/src/main/java/com/ejemplo/mi_primera_api/TaskController.java:38-46 | appends exactly the task built from the body under the old counter and returns it. Earlier tasks are unchanged and in order. The counter rises by one. The new id exceeds every existing id. The invariant is kept |
| Registry.TaskController.UpdateTask | mi-primera-api/src/main/java/com/ejemplo/mi_primera_api/TaskController.java:50-64 | returns null and changes nothing when no task has the id. Otherwise it replaces the matching task with its patch and returns that. Length, order, other tasks and the counter are unchanged. The invariant is kept |
| Registry.TaskController.DeleteTask | mi-primera-api/src/main/java/com/ejemplo/mi_primera_api/TaskController.java:68-71 | removes exactly the tasks with the id and keeps the rest in order. It is a no-op when none matches. The counter is unchanged. It always returns the confirmation for that id. The invariant is kept |

## Left out

- `HelloWorldController.java` is not part of this model. It returns constant strings, reads the wall clock for `/date` and concatenates one string for `/greet`.
- Spring routing and annotations, JSON (de)serialisation of requests and responses, and the HTTP status of a null answer.
- Aliasing. `getAllTasks` returns the live list, and `getTaskById`, `createTask` and `updateTask` return the task object held in the list. Later updates are visible through those references. The model returns values.
- Request bodies with the wrong type (a non-string title, a non-boolean `completed`) raise `ClassCastException` in the source. `Payload` cannot express them. It also rules out the partial update this allows: a body with a valid `title` and a non-boolean `completed` runs `setTitle` before the cast of `completed` throws, so the title change stays in the list although the request fails.
- A `completed` key that is present with a JSON null. In create, unboxing it throws a `NullPointerException`. In update, the outcome depends on the `Task` setter, whose parameter type decides it: `boolean` unboxes and throws, `Boolean` stores null. `Payload` cannot express it either.
- Concurrent requests. The list is unsynchronised; the model handles requests one at a time.
- `Long` overflow of `nextId` and of ids; the model uses unbounded integers.
- The `Task` class is not modelled as a class. `Task` is a record whose fields are inferred from the constructor call (TaskController.java:16) and the getters and setters `TaskController` uses. Those setters are assumed to store their argument.
