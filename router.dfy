/**
 * The API layer of the register: the procedures of the tRPC router over
 * the three tables, the per-car task quota, the derivation of a task's
 * completed flag, and the protection of suggestions that tasks refer to.
 * The tables live in a Store object whose methods are the mutations and
 * whose functions are the queries.
 */
module Router {
  import opened Wrappers
  import opened Schema
  import Text
  import Ai
  import Vegvesen

  /** A car may hold at most this many tasks. */
  const MaxTasksPerCar: nat := 10

  /** The input schema of createTask bounds an estimate to 50 hours. */
  const MaxTaskMinutes: int := 50 * 60

  /** The errors the procedures throw, by kind; their localized messages are not modelled. */
  datatype ApiError =
    | NotFound                            // no car, task or suggestion has the id
    | LookupFailed                        // createCar: every failure, a duplicate regNr included
    | GenerationFailed(reason: Ai.AiError)  // the suggestion generator threw
    | EmptyInsert                         // insert(...).values([]) throws in the query builder
    | QuotaExceeded                       // the car already has MaxTasksPerCar tasks
    | InUse                               // a task refers to the suggestion

  // The where clauses of the queries

  /** `select from tasks where car_id = carId`, in table order. */
  function TasksOfCar(tasks: seq<Task>, carId: int): (r: seq<Task>)
    ensures |r| <= |tasks|
    ensures forall k :: 0 <= k < |r| ==> r[k].carId == carId
  {
    if tasks == [] then []
    else (if tasks[0].carId == carId then [tasks[0]] else []) + TasksOfCar(tasks[1..], carId)
  }

  /** The tasks of a car are exactly the rows with its id. */
  lemma {:induction false} TasksOfCarMembers(tasks: seq<Task>, carId: int)
    ensures forall t :: t in TasksOfCar(tasks, carId) <==> t in tasks && t.carId == carId
  {
    if tasks != [] {
      TasksOfCarMembers(tasks[1..], carId);
      assert tasks == [tasks[0]] + tasks[1..];
    }
  }

  /** Rows stored in strictly ascending id order, as the auto-increment key keeps them. */
  predicate TaskIdsAscending(tasks: seq<Task>) {
    forall i, j :: 0 <= i < j < |tasks| ==> tasks[i].id < tasks[j].id
  }

  predicate SuggestionIdsAscending(suggestions: seq<Suggestion>) {
    forall i, j :: 0 <= i < j < |suggestions| ==> suggestions[i].id < suggestions[j].id
  }

  /**
   * The filter keeps the table's id order, so on a table with ascending ids
   * each matching row comes back exactly once, in table order.
   */
  lemma {:induction false} TasksOfCarOrdered(tasks: seq<Task>, carId: int)
    ensures TaskIdsAscending(tasks) ==> TaskIdsAscending(TasksOfCar(tasks, carId))
  {
    if tasks != [] && TaskIdsAscending(tasks) {
      var rest := tasks[1..];
      assert TaskIdsAscending(rest) by {
        forall i, j | 0 <= i < j < |rest| ensures rest[i].id < rest[j].id {
          assert rest[i] == tasks[i + 1] && rest[j] == tasks[j + 1];
        }
      }
      TasksOfCarOrdered(rest, carId);
      TasksOfCarMembers(rest, carId);
      var r, tail := TasksOfCar(tasks, carId), TasksOfCar(rest, carId);
      if tasks[0].carId == carId {
        assert r == [tasks[0]] + tail;
        forall i, j | 0 <= i < j < |r| ensures r[i].id < r[j].id {
          assert r[j] == tail[j - 1];
          if i == 0 {
            assert tail[j - 1] in rest;
            var k :| 0 <= k < |rest| && rest[k] == tail[j - 1];
            assert rest[k] == tasks[k + 1];
          } else {
            assert r[i] == tail[i - 1];
          }
        }
      } else {
        assert r == tail;
      }
    }
  }

  /** `select from task_suggestions where car_id = carId`, in table order. */
  function SuggestionsOfCar(suggestions: seq<Suggestion>, carId: int): (r: seq<Suggestion>)
    ensures |r| <= |suggestions|
    ensures forall s :: s in r <==> s in suggestions && s.carId == carId
  {
    if suggestions == [] then []
    else (if suggestions[0].carId == carId then [suggestions[0]] else []) + SuggestionsOfCar(suggestions[1..], carId)
  }

  /** A table with ascending ids stays ascending without its first row, whose id is below every other. */
  lemma SuggestionIdsAscendingTail(suggestions: seq<Suggestion>)
    requires suggestions != [] && SuggestionIdsAscending(suggestions)
    ensures SuggestionIdsAscending(suggestions[1..])
    ensures forall s :: s in suggestions[1..] ==> suggestions[0].id < s.id
  {
    var rest := suggestions[1..];
    forall i | 0 <= i < |rest| ensures rest[i] == suggestions[i + 1] {}
  }

  /** A row placed before ascending rows with larger ids keeps the ids ascending. */
  lemma SuggestionIdsAscendingCons(head: Suggestion, tail: seq<Suggestion>)
    requires SuggestionIdsAscending(tail)
    requires forall s :: s in tail ==> head.id < s.id
    ensures SuggestionIdsAscending([head] + tail)
  {
    var r := [head] + tail;
    forall i, j | 0 <= i < j < |r| ensures r[i].id < r[j].id {
      assert r[j] == tail[j - 1];
      if i > 0 {
        assert r[i] == tail[i - 1];
      }
    }
  }

  /** The suggestions of a car keep the table's id order, so each comes back exactly once. */
  lemma {:induction false} SuggestionsOfCarOrdered(suggestions: seq<Suggestion>, carId: int)
    ensures SuggestionIdsAscending(suggestions) ==> SuggestionIdsAscending(SuggestionsOfCar(suggestions, carId))
  {
    if suggestions != [] && SuggestionIdsAscending(suggestions) {
      var rest := suggestions[1..];
      SuggestionIdsAscendingTail(suggestions);
      SuggestionsOfCarOrdered(rest, carId);
      var tail := SuggestionsOfCar(rest, carId);
      if suggestions[0].carId == carId {
        SuggestionIdsAscendingCons(suggestions[0], tail);
      }
    }
  }

  /** `select from tasks where suggestion_id = suggestionId`. */
  function TasksOfSuggestion(tasks: seq<Task>, suggestionId: int): (r: seq<Task>)
    ensures |r| == 0 <==> forall t :: t in tasks ==> t.suggestionId != Some(suggestionId)
  {
    if tasks == [] then []
    else (if tasks[0].suggestionId == Some(suggestionId) then [tasks[0]] else []) + TasksOfSuggestion(tasks[1..], suggestionId)
  }

  /** `select from cars where id = id limit 1`. */
  function FindCar(cars: seq<Car>, id: int): (r: Option<Car>)
    ensures r.Some? ==> r.value in cars && r.value.id == id
    ensures r.None? <==> !CarExists(cars, id)
  {
    if cars == [] then None
    else if cars[0].id == id then Some(cars[0])
    else
      var r := FindCar(cars[1..], id);
      assert CarExists(cars[1..], id) ==> CarExists(cars, id);
      r
  }

  /** The first task with this id. */
  function FindTask(tasks: seq<Task>, id: int): (r: Option<Task>)
    ensures r.Some? ==> r.value in tasks && r.value.id == id
    ensures r.None? <==> forall t :: t in tasks ==> t.id != id
  {
    if tasks == [] then None
    else if tasks[0].id == id then Some(tasks[0])
    else FindTask(tasks[1..], id)
  }

  /** `order by id desc` on a table stored in id order: the rows, last inserted first. */
  function NewestFirst(cars: seq<Car>): (r: seq<Car>)
    ensures |r| == |cars|
    ensures forall k :: 0 <= k < |r| ==> r[k] == cars[|cars| - 1 - k]
  {
    if cars == [] then [] else [cars[|cars| - 1]] + NewestFirst(cars[..|cars| - 1])
  }

  /** `delete from task_suggestions where id = id`: the rows with another id, in order. */
  function WithoutSuggestion(suggestions: seq<Suggestion>, id: int): (r: seq<Suggestion>)
    ensures |r| <= |suggestions|
    ensures forall s :: s in r <==> s in suggestions && s.id != id
  {
    if suggestions == [] then []
    else (if suggestions[0].id == id then [] else [suggestions[0]]) + WithoutSuggestion(suggestions[1..], id)
  }

  /** `completed: input.completed ?? input.status === TaskStatus.COMPLETED`. */
  function CompletedFlag(status: TaskStatus, explicit: Option<bool>): (c: bool)
    ensures explicit.Some? ==> c == explicit.value
    ensures explicit.None? ==> (c <==> status == Completed)
  {
    explicit.GetOr(status == Completed)
  }

  /** `update tasks set status, completed where id = id`: those two fields of the matching rows change, nothing else. */
  function SetTaskStatus(tasks: seq<Task>, id: int, status: TaskStatus, completed: bool): (r: seq<Task>)
    ensures |r| == |tasks|
  {
    if tasks == [] then []
    else
      var t := tasks[0];
      [if t.id == id then t.(status := status, completed := completed) else t]
        + SetTaskStatus(tasks[1..], id, status, completed)
  }

  /** The update sets status and completed on exactly the rows with the id and leaves every other row as it was. */
  lemma {:induction false} SetTaskStatusPointwise(tasks: seq<Task>, id: int, status: TaskStatus, completed: bool)
    ensures var r := SetTaskStatus(tasks, id, status, completed);
      forall i :: 0 <= i < |tasks| ==>
        r[i] == if tasks[i].id == id then tasks[i].(status := status, completed := completed) else tasks[i]
  {
    if tasks != [] {
      SetTaskStatusPointwise(tasks[1..], id, status, completed);
      var r := SetTaskStatus(tasks, id, status, completed);
      forall i | 1 <= i < |tasks| ensures r[i] == SetTaskStatus(tasks[1..], id, status, completed)[i - 1] {}
    }
  }

  /** The rows the batch insert of fetchAISuggestions writes: consecutive fresh ids, the car's id, the sanitised fields. */
  function SuggestionRows(carId: int, firstId: int, items: seq<Ai.TaskSuggestion>): (rows: seq<Suggestion>)
    ensures |rows| == |items|
    ensures forall i :: 0 <= i < |rows| ==> rows[i].id == firstId + i && rows[i].carId == carId
    ensures forall i :: 0 <= i < |rows| ==>
      && rows[i].title == items[i].title
      && rows[i].description == items[i].description
      && rows[i].estimatedMinutes == items[i].estimatedMinutes
  {
    seq(|items|, i requires 0 <= i < |items| =>
      Suggestion(firstId + i, carId, items[i].title, items[i].description, items[i].estimatedMinutes))
  }

  /** Rows built from sanitised suggestions carry consecutive ids from `firstId`, the car id and the sanitiser's bounds. */
  lemma SuggestionRowsFacts(carId: int, firstId: int, items: seq<Ai.TaskSuggestion>)
    requires forall s :: s in items ==> Ai.IsSanitised(s)
    ensures |SuggestionRows(carId, firstId, items)| == |items|
    ensures forall i :: 0 <= i < |items| ==> SuggestionRows(carId, firstId, items)[i].id == firstId + i
    ensures forall s :: s in SuggestionRows(carId, firstId, items) ==>
      SuggestionSanitised(s) && s.carId == carId && s.id >= firstId
  {
    var rows := SuggestionRows(carId, firstId, items);
    forall s | s in rows ensures SuggestionSanitised(s) && s.carId == carId && s.id >= firstId {
      var i :| 0 <= i < |rows| && rows[i] == s;
      assert items[i] in items;
    }
  }

  /** A suggestion row keeps the sanitiser's bounds. */
  predicate SuggestionSanitised(s: Suggestion) {
    Ai.IsSanitised(Ai.TaskSuggestion(s.title, s.description, s.estimatedMinutes))
  }

  /** The input schema of createTask, which every task row was created through. */
  predicate TaskInputValid(carId: int, title: string, suggestionId: Option<int>, estimatedMinutes: Option<int>) {
    && 1 <= carId
    && |title| >= 1
    && (suggestionId.Some? ==> 1 <= suggestionId.value)
    && (estimatedMinutes.Some? ==> 1 <= estimatedMinutes.value <= MaxTaskMinutes)
  }

  predicate TaskRowValid(t: Task) {
    TaskInputValid(t.carId, t.title, t.suggestionId, t.estimatedMinutes)
  }

  /** No car holds more tasks than the quota. */
  ghost predicate WithinQuota(tasks: seq<Task>) {
    forall c :: |TasksOfCar(tasks, c)| <= MaxTasksPerCar
  }

  // Lemmas about the queries and updates

  lemma {:induction false} TasksOfCarAppend(tasks: seq<Task>, t: Task, carId: int)
    ensures TasksOfCar(tasks + [t], carId) == TasksOfCar(tasks, carId) + (if t.carId == carId then [t] else [])
  {
    var tail := if t.carId == carId then [t] else [];
    if tasks == [] {
      assert tasks + [t] == [t] && [t][1..] == [];
    } else {
      var u := tasks + [t];
      assert u[0] == tasks[0] && u[1..] == tasks[1..] + [t];
      TasksOfCarAppend(tasks[1..], t, carId);
      var head := if tasks[0].carId == carId then [tasks[0]] else [];
      var rest := TasksOfCar(tasks[1..], carId);
      assert TasksOfCar(u, carId) == head + (rest + tail);
      assert TasksOfCar(tasks, carId) == head + rest;
      assert head + (rest + tail) == (head + rest) + tail;
    }
  }

  /**
   * Inserting a task for a car below the quota adds one task to that car and
   * none to any other, so no car that was within the quota leaves it.
   */
  lemma InsertKeepsQuota(tasks: seq<Task>, t: Task)
    requires |TasksOfCar(tasks, t.carId)| < MaxTasksPerCar
    ensures |TasksOfCar(tasks + [t], t.carId)| == |TasksOfCar(tasks, t.carId)| + 1
    ensures forall c :: c != t.carId ==> TasksOfCar(tasks + [t], c) == TasksOfCar(tasks, c)
    ensures forall c :: |TasksOfCar(tasks, c)| <= MaxTasksPerCar ==> |TasksOfCar(tasks + [t], c)| <= MaxTasksPerCar
    ensures WithinQuota(tasks) ==> WithinQuota(tasks + [t])
  {
    forall c ensures TasksOfCar(tasks + [t], c) == TasksOfCar(tasks, c) + (if t.carId == c then [t] else []) {
      TasksOfCarAppend(tasks, t, c);
    }
  }

  /** A status update moves no task to another car, so every car keeps its task count. */
  lemma {:induction false} SetTaskStatusKeepsCarTasks(tasks: seq<Task>, id: int, status: TaskStatus, completed: bool, carId: int)
    ensures |TasksOfCar(SetTaskStatus(tasks, id, status, completed), carId)| == |TasksOfCar(tasks, carId)|
  {
    if tasks != [] {
      var r := SetTaskStatus(tasks, id, status, completed);
      assert r[1..] == SetTaskStatus(tasks[1..], id, status, completed);
      SetTaskStatusKeepsCarTasks(tasks[1..], id, status, completed, carId);
    }
  }

  /** Every car keeps its task count across a status update. */
  lemma SetTaskStatusKeepsCounts(tasks: seq<Task>, id: int, status: TaskStatus, completed: bool)
    ensures forall c :: |TasksOfCar(SetTaskStatus(tasks, id, status, completed), c)| == |TasksOfCar(tasks, c)|
  {
    forall c ensures |TasksOfCar(SetTaskStatus(tasks, id, status, completed), c)| == |TasksOfCar(tasks, c)| {
      SetTaskStatusKeepsCarTasks(tasks, id, status, completed, c);
    }
  }

  /** So a status update never breaks the quota. */
  lemma SetTaskStatusKeepsQuota(tasks: seq<Task>, id: int, status: TaskStatus, completed: bool)
    ensures WithinQuota(tasks) ==> WithinQuota(SetTaskStatus(tasks, id, status, completed))
  {
    SetTaskStatusKeepsCounts(tasks, id, status, completed);
  }

  /** An update of an id no task has leaves the table as it was. */
  lemma SetTaskStatusMissingId(tasks: seq<Task>, id: int, status: TaskStatus, completed: bool)
    requires forall t :: t in tasks ==> t.id != id
    ensures SetTaskStatus(tasks, id, status, completed) == tasks
  {
    var r := SetTaskStatus(tasks, id, status, completed);
    SetTaskStatusPointwise(tasks, id, status, completed);
    forall i | 0 <= i < |tasks| ensures r[i] == tasks[i] {
      assert tasks[i] in tasks;
    }
  }

  /** The task an update returns is the old row with the new status and completed flag. */
  lemma {:induction false} FindAfterSetTaskStatus(tasks: seq<Task>, id: int, status: TaskStatus, completed: bool)
    ensures FindTask(tasks, id).None? ==> FindTask(SetTaskStatus(tasks, id, status, completed), id).None?
    ensures FindTask(tasks, id).Some? ==>
      FindTask(SetTaskStatus(tasks, id, status, completed), id) == Some(FindTask(tasks, id).value.(status := status, completed := completed))
  {
    if tasks != [] {
      var r := SetTaskStatus(tasks, id, status, completed);
      assert r[1..] == SetTaskStatus(tasks[1..], id, status, completed);
      FindAfterSetTaskStatus(tasks[1..], id, status, completed);
    }
  }

  /** A row placed before rows with larger keys keeps the keys ascending. */
  lemma ConsKeepsKeys(first: Suggestion, rest: seq<Suggestion>, nextId: int)
    requires SuggestionKeysValid(rest, nextId) && 1 <= first.id < nextId
    requires forall j :: 0 <= j < |rest| ==> first.id < rest[j].id
    ensures SuggestionKeysValid([first] + rest, nextId)
  {
    var r := [first] + rest;
    forall i, j | 0 <= i < j < |r| ensures r[i].id < r[j].id {
      assert r[j] == rest[j - 1];
      if i > 0 {
        assert r[i] == rest[i - 1];
      }
    }
  }

  /** Deleting rows keeps the remaining keys ascending and below the next id. */
  lemma {:induction false} WithoutSuggestionKeepsKeys(suggestions: seq<Suggestion>, nextId: int, id: int)
    requires SuggestionKeysValid(suggestions, nextId)
    ensures SuggestionKeysValid(WithoutSuggestion(suggestions, id), nextId)
  {
    if suggestions != [] {
      var rest := suggestions[1..];
      assert SuggestionKeysValid(rest, nextId);
      WithoutSuggestionKeepsKeys(rest, nextId, id);
      if suggestions[0].id != id {
        var r' := WithoutSuggestion(rest, id);
        forall j | 0 <= j < |r'| ensures suggestions[0].id < r'[j].id {
          assert r'[j] in rest;
        }
        ConsKeepsKeys(suggestions[0], r', nextId);
      }
    }
  }

  /** Deleting an id no row has changes nothing. */
  lemma {:induction false} WithoutAbsentSuggestion(suggestions: seq<Suggestion>, id: int)
    requires !SuggestionExists(suggestions, id)
    ensures WithoutSuggestion(suggestions, id) == suggestions
  {
    if suggestions != [] {
      assert suggestions[0].id != id;
      forall i | 0 <= i < |suggestions| - 1 ensures suggestions[1..][i].id != id {
        assert suggestions[1..][i] == suggestions[i + 1];
      }
      WithoutAbsentSuggestion(suggestions[1..], id);
    }
  }

  /** Splits a suggestion table into its first row and the rest, as far as id lookup is concerned. */
  lemma SuggestionExistsCons(suggestions: seq<Suggestion>, id: int)
    requires suggestions != []
    ensures SuggestionExists(suggestions, id) <==> suggestions[0].id == id || SuggestionExists(suggestions[1..], id)
  {
    var rest := suggestions[1..];
    if SuggestionExists(suggestions, id) && suggestions[0].id != id {
      var i :| 0 <= i < |suggestions| && suggestions[i].id == id;
      assert rest[i - 1].id == id;
    }
    if SuggestionExists(rest, id) {
      var i :| 0 <= i < |rest| && rest[i].id == id;
      assert suggestions[i + 1].id == id;
    }
  }

  /** With ascending ids, the first row's id appears nowhere in the rest. */
  lemma HeadIdNotInRest(suggestions: seq<Suggestion>, nextId: int)
    requires suggestions != [] && SuggestionKeysValid(suggestions, nextId)
    ensures SuggestionKeysValid(suggestions[1..], nextId)
    ensures !SuggestionExists(suggestions[1..], suggestions[0].id)
  {
    var rest := suggestions[1..];
    forall i | 0 <= i < |rest| ensures rest[i].id != suggestions[0].id {
      assert rest[i] == suggestions[i + 1];
    }
  }

  /** With unique keys, deleting an existing suggestion removes exactly one row. */
  lemma {:induction false} WithoutSuggestionCount(suggestions: seq<Suggestion>, nextId: int, id: int)
    requires SuggestionKeysValid(suggestions, nextId)
    ensures |WithoutSuggestion(suggestions, id)| == if SuggestionExists(suggestions, id) then |suggestions| - 1 else |suggestions|
  {
    if suggestions != [] {
      var rest := suggestions[1..];
      HeadIdNotInRest(suggestions, nextId);
      SuggestionExistsCons(suggestions, id);
      if suggestions[0].id == id {
        WithoutAbsentSuggestion(rest, id);
      } else {
        WithoutSuggestionCount(rest, nextId, id);
      }
    }
  }

  /**
   * Deleting a suggestion that no task refers to keeps every foreign key
   * resolved: this is what the in-use check protects.
   */
  lemma DeleteUnusedKeepsReferences(cars: seq<Car>, suggestions: seq<Suggestion>, tasks: seq<Task>, id: int)
    requires |TasksOfSuggestion(tasks, id)| == 0
    ensures ReferencesResolve(cars, suggestions, tasks) ==> ReferencesResolve(cars, WithoutSuggestion(suggestions, id), tasks)
  {
    if ReferencesResolve(cars, suggestions, tasks) {
      var remaining := WithoutSuggestion(suggestions, id);
      forall t | t in tasks && t.suggestionId.Some?
        ensures SuggestionExists(remaining, t.suggestionId.value)
      {
        var i :| 0 <= i < |suggestions| && suggestions[i].id == t.suggestionId.value;
        assert suggestions[i] in remaining;
        var j :| 0 <= j < |remaining| && remaining[j] == suggestions[i];
      }
    }
  }

  /** Deleting a suggestion that a task refers to would leave that task's suggestionId dangling. */
  lemma DeleteUsedBreaksReference(suggestions: seq<Suggestion>, tasks: seq<Task>, id: int)
    requires |TasksOfSuggestion(tasks, id)| > 0
    ensures exists t :: t in tasks && t.suggestionId == Some(id)
    ensures !SuggestionExists(WithoutSuggestion(suggestions, id), id)
  {
    var remaining := WithoutSuggestion(suggestions, id);
    forall j | 0 <= j < |remaining| ensures remaining[j].id != id {
      assert remaining[j] in remaining;
    }
  }

  /**
   * Every status may follow every status: whatever the old status of an
   * existing task, the update finds it and gives it the new status and flag.
   */
  lemma AnyTransitionAllowed(tasks: seq<Task>, id: int, to: TaskStatus, explicit: Option<bool>)
    requires FindTask(tasks, id).Some?
    ensures FindTask(SetTaskStatus(tasks, id, to, CompletedFlag(to, explicit)), id)
      == Some(FindTask(tasks, id).value.(status := to, completed := CompletedFlag(to, explicit)))
  {
    FindAfterSetTaskStatus(tasks, id, to, CompletedFlag(to, explicit));
  }

  /** A one-row car table holds no registration number other than its own. */
  lemma OtherRegNrNotTaken(car: Car, regNr: string)
    requires car.regNr != regNr
    ensures !RegNrTaken([car], regNr)
  {
    forall i | 0 <= i < |[car]| ensures [car][i].regNr != regNr {
      assert [car][i] == car;
    }
  }

  /**
   * The stored registration number is upper-cased but not trimmed, so an
   * input with leading or trailing white space is looked up under the same
   * key as the car already stored for it, yet is not taken by that car: the
   * same vehicle can be stored twice.
   */
  lemma UntrimmedRegNrStored(regNr: string, car: Car)
    requires regNr != [] && (Text.IsSpace(regNr[0]) || Text.IsSpace(regNr[|regNr| - 1]))
    requires car.regNr == Vegvesen.RegNrKey(regNr)
    ensures Vegvesen.RegNrKey(car.regNr) == Vegvesen.RegNrKey(regNr)
    ensures !RegNrTaken([car], Text.ToUpper(regNr))
  {
    Vegvesen.RegNrKeyIdempotent(regNr);
    Vegvesen.UntrimmedIsNotKey(regNr);
    OtherRegNrNotTaken(car, Text.ToUpper(regNr));
  }

  // Inserts and updates keep the table invariants

  lemma CarInsertKeepsKeys(cars: seq<Car>, nextId: int, car: Car)
    requires CarKeysValid(cars, nextId) && RegNrUnique(cars)
    requires car.id == nextId && !RegNrTaken(cars, car.regNr)
    ensures CarKeysValid(cars + [car], nextId + 1) && RegNrUnique(cars + [car])
  {
    var r := cars + [car];
    forall i, j | 0 <= i < j < |r| ensures r[i].regNr != r[j].regNr && r[i].id < r[j].id {
      assert r[i] == cars[i];
      if j < |cars| {
        assert r[j] == cars[j];
      }
    }
  }

  lemma CarInsertKeepsReferences(cars: seq<Car>, suggestions: seq<Suggestion>, tasks: seq<Task>, car: Car)
    ensures ReferencesResolve(cars, suggestions, tasks) ==> ReferencesResolve(cars + [car], suggestions, tasks)
  {
    if ReferencesResolve(cars, suggestions, tasks) {
      forall id | CarExists(cars, id) ensures CarExists(cars + [car], id) {
        var i :| 0 <= i < |cars| && cars[i].id == id;
        assert (cars + [car])[i].id == id;
      }
    }
  }

  lemma SuggestionInsertKeepsKeys(suggestions: seq<Suggestion>, nextId: int, rows: seq<Suggestion>)
    requires SuggestionKeysValid(suggestions, nextId)
    requires forall i :: 0 <= i < |rows| ==> rows[i].id == nextId + i
    ensures SuggestionKeysValid(suggestions + rows, nextId + |rows|)
  {
    var r := suggestions + rows;
    forall i | 0 <= i < |r| ensures 1 <= r[i].id < nextId + |rows| {
      if i >= |suggestions| {
        assert r[i] == rows[i - |suggestions|];
      }
    }
    forall i, j | 0 <= i < j < |r| ensures r[i].id < r[j].id {
      if j < |suggestions| {
        assert r[i] == suggestions[i] && r[j] == suggestions[j];
      } else if i < |suggestions| {
        assert r[i] == suggestions[i] && r[j] == rows[j - |suggestions|];
      } else {
        assert r[i] == rows[i - |suggestions|] && r[j] == rows[j - |suggestions|];
      }
    }
  }

  lemma SuggestionInsertKeepsReferences(cars: seq<Car>, suggestions: seq<Suggestion>, tasks: seq<Task>, rows: seq<Suggestion>)
    requires forall s :: s in rows ==> CarExists(cars, s.carId)
    ensures ReferencesResolve(cars, suggestions, tasks) ==> ReferencesResolve(cars, suggestions + rows, tasks)
  {
    if ReferencesResolve(cars, suggestions, tasks) {
      forall id | SuggestionExists(suggestions, id) ensures SuggestionExists(suggestions + rows, id) {
        var i :| 0 <= i < |suggestions| && suggestions[i].id == id;
        assert (suggestions + rows)[i].id == id;
      }
    }
  }

  lemma TaskInsertKeepsKeys(tasks: seq<Task>, nextId: int, t: Task)
    requires TaskKeysValid(tasks, nextId) && t.id == nextId
    ensures TaskKeysValid(tasks + [t], nextId + 1)
  {
    var r := tasks + [t];
    forall i, j | 0 <= i < j < |r| ensures r[i].id < r[j].id {
      assert r[i] == tasks[i];
      if j < |tasks| {
        assert r[j] == tasks[j];
      }
    }
  }

  lemma TaskInsertKeepsReferences(cars: seq<Car>, suggestions: seq<Suggestion>, tasks: seq<Task>, t: Task)
    ensures ReferencesResolve(cars, suggestions, tasks)
            && CarExists(cars, t.carId)
            && (t.suggestionId.Some? ==> SuggestionExists(suggestions, t.suggestionId.value))
            ==> ReferencesResolve(cars, suggestions, tasks + [t])
  {
  }

  /** A status update changes no id, so the task keys stay valid. */
  lemma SetTaskStatusKeepsKeys(tasks: seq<Task>, nextId: int, id: int, status: TaskStatus, completed: bool)
    requires TaskKeysValid(tasks, nextId)
    ensures TaskKeysValid(SetTaskStatus(tasks, id, status, completed), nextId)
  {
    SetTaskStatusPointwise(tasks, id, status, completed);
  }

  /** A status update changes no car, title, suggestion or estimate, so every row stays valid. */
  lemma SetTaskStatusKeepsRows(tasks: seq<Task>, id: int, status: TaskStatus, completed: bool)
    requires forall t :: t in tasks ==> TaskRowValid(t)
    ensures forall t :: t in SetTaskStatus(tasks, id, status, completed) ==> TaskRowValid(t)
  {
    var r := SetTaskStatus(tasks, id, status, completed);
    SetTaskStatusPointwise(tasks, id, status, completed);
    forall t | t in r ensures TaskRowValid(t) {
      var i :| 0 <= i < |r| && r[i] == t;
      assert tasks[i] in tasks;
    }
  }

  /** A status update moves no task to another car or suggestion, so every reference still resolves. */
  lemma SetTaskStatusKeepsReferences(cars: seq<Car>, suggestions: seq<Suggestion>, tasks: seq<Task>,
                                     id: int, status: TaskStatus, completed: bool)
    ensures ReferencesResolve(cars, suggestions, tasks) ==> ReferencesResolve(cars, suggestions, SetTaskStatus(tasks, id, status, completed))
  {
    if ReferencesResolve(cars, suggestions, tasks) {
      var r := SetTaskStatus(tasks, id, status, completed);
      SetTaskStatusPointwise(tasks, id, status, completed);
      forall t | t in r
        ensures CarExists(cars, t.carId)
        ensures t.suggestionId.Some? ==> SuggestionExists(suggestions, t.suggestionId.value)
      {
        var i :| 0 <= i < |r| && r[i] == t;
        assert tasks[i] in tasks;
      }
    }
  }

  /** The schema's constraints on the three tables, and the bounds every row gets from the procedure that inserts it. */
  ghost predicate TablesValid(
    cars: seq<Car>, suggestions: seq<Suggestion>, tasks: seq<Task>,
    nextCarId: int, nextSuggestionId: int, nextTaskId: int)
  {
    && CarKeysValid(cars, nextCarId) && RegNrUnique(cars)
    && SuggestionKeysValid(suggestions, nextSuggestionId)
    && (forall s :: s in suggestions ==> SuggestionSanitised(s))
    && TaskKeysValid(tasks, nextTaskId)
    && (forall t :: t in tasks ==> TaskRowValid(t))
  }

  lemma CarInsertKeepsValid(
    cars: seq<Car>, suggestions: seq<Suggestion>, tasks: seq<Task>,
    nextCarId: int, nextSuggestionId: int, nextTaskId: int, car: Car)
    requires TablesValid(cars, suggestions, tasks, nextCarId, nextSuggestionId, nextTaskId)
    requires car.id == nextCarId && !RegNrTaken(cars, car.regNr)
    ensures TablesValid(cars + [car], suggestions, tasks, nextCarId + 1, nextSuggestionId, nextTaskId)
  {
    CarInsertKeepsKeys(cars, nextCarId, car);
  }

  lemma SuggestionInsertKeepsValid(
    cars: seq<Car>, suggestions: seq<Suggestion>, tasks: seq<Task>,
    nextCarId: int, nextSuggestionId: int, nextTaskId: int, rows: seq<Suggestion>)
    requires TablesValid(cars, suggestions, tasks, nextCarId, nextSuggestionId, nextTaskId)
    requires forall i :: 0 <= i < |rows| ==> rows[i].id == nextSuggestionId + i
    requires forall s :: s in rows ==> SuggestionSanitised(s)
    ensures TablesValid(cars, suggestions + rows, tasks, nextCarId, nextSuggestionId + |rows|, nextTaskId)
  {
    SuggestionInsertKeepsKeys(suggestions, nextSuggestionId, rows);
  }

  lemma TaskInsertKeepsValid(
    cars: seq<Car>, suggestions: seq<Suggestion>, tasks: seq<Task>,
    nextCarId: int, nextSuggestionId: int, nextTaskId: int, task: Task)
    requires TablesValid(cars, suggestions, tasks, nextCarId, nextSuggestionId, nextTaskId)
    requires task.id == nextTaskId && TaskRowValid(task)
    ensures TablesValid(cars, suggestions, tasks + [task], nextCarId, nextSuggestionId, nextTaskId + 1)
  {
    TaskInsertKeepsKeys(tasks, nextTaskId, task);
  }

  lemma SetTaskStatusKeepsValid(
    cars: seq<Car>, suggestions: seq<Suggestion>, tasks: seq<Task>,
    nextCarId: int, nextSuggestionId: int, nextTaskId: int,
    id: int, status: TaskStatus, completed: bool)
    requires TablesValid(cars, suggestions, tasks, nextCarId, nextSuggestionId, nextTaskId)
    ensures TablesValid(cars, suggestions, SetTaskStatus(tasks, id, status, completed), nextCarId, nextSuggestionId, nextTaskId)
    ensures ReferencesResolve(cars, suggestions, tasks) ==> ReferencesResolve(cars, suggestions, SetTaskStatus(tasks, id, status, completed))
  {
    SetTaskStatusKeepsKeys(tasks, nextTaskId, id, status, completed);
    SetTaskStatusKeepsRows(tasks, id, status, completed);
    SetTaskStatusKeepsReferences(cars, suggestions, tasks, id, status, completed);
  }

  lemma DeleteSuggestionKeepsValid(
    cars: seq<Car>, suggestions: seq<Suggestion>, tasks: seq<Task>,
    nextCarId: int, nextSuggestionId: int, nextTaskId: int, id: int)
    requires TablesValid(cars, suggestions, tasks, nextCarId, nextSuggestionId, nextTaskId)
    ensures TablesValid(cars, WithoutSuggestion(suggestions, id), tasks, nextCarId, nextSuggestionId, nextTaskId)
    ensures |WithoutSuggestion(suggestions, id)| == if SuggestionExists(suggestions, id) then |suggestions| - 1 else |suggestions|
  {
    WithoutSuggestionKeepsKeys(suggestions, nextSuggestionId, id);
    WithoutSuggestionCount(suggestions, nextSuggestionId, id);
  }

  /** The tables, their id counters, and the procedures that read and change them. */
  class Store {
    var cars: seq<Car>
    var suggestions: seq<Suggestion>
    var tasks: seq<Task>
    var nextCarId: int
    var nextSuggestionId: int
    var nextTaskId: int

    /** The schema's constraints, and the bounds every row gets from the procedure that inserts it. */
    ghost predicate Valid()
      reads this
    {
      TablesValid(cars, suggestions, tasks, nextCarId, nextSuggestionId, nextTaskId)
    }

    ghost predicate QuotaHolds()
      reads this
    {
      WithinQuota(tasks)
    }

    ghost predicate References()
      reads this
    {
      ReferencesResolve(cars, suggestions, tasks)
    }

    /** An empty database. */
    constructor ()
      ensures Valid() && QuotaHolds() && References()
      ensures cars == [] && suggestions == [] && tasks == []
    {
      cars, suggestions, tasks := [], [], [];
      nextCarId, nextSuggestionId, nextTaskId := 1, 1, 1;
    }

    /** getCars: every car, by id descending. */
    function GetCars(): (r: seq<Car>)
      reads this
      requires Valid()
      ensures |r| == |cars| && forall c :: c in r <==> c in cars
      ensures forall i, j :: 0 <= i < j < |r| ==> r[i].id > r[j].id
    {
      var r := NewestFirst(cars);
      assert forall c :: c in cars ==> c in r by {
        forall c | c in cars ensures c in r {
          var k :| 0 <= k < |cars| && cars[k] == c;
          assert r[|cars| - 1 - k] == c;
        }
      }
      r
    }

    /** getCarById: the car with this id, or NotFound. */
    function GetCarById(id: int): (r: Result<Car, ApiError>)
      reads this
      requires 1 <= id
      ensures r.Success? <==> CarExists(cars, id)
      ensures r.Success? ==> r.value in cars && r.value.id == id
      ensures r.Failure? ==> r.error == NotFound
    {
      match FindCar(cars, id)
      case Some(car) => Success(car)
      case None => Failure(NotFound)
    }

    /** getTaskSuggestions: exactly the suggestions of this car. */
    function GetTaskSuggestions(carId: int): (r: seq<Suggestion>)
      reads this
      requires 1 <= carId
      ensures forall s :: s in r <==> s in suggestions && s.carId == carId
      ensures Valid() ==> SuggestionIdsAscending(r)
    {
      SuggestionsOfCarOrdered(suggestions, carId);
      SuggestionsOfCar(suggestions, carId)
    }

    /** getTasks: exactly the tasks of this car. */
    function GetTasks(carId: int): (r: seq<Task>)
      reads this
      requires 1 <= carId
      ensures forall t :: t in r <==> t in tasks && t.carId == carId
      ensures Valid() ==> TaskIdsAscending(r)
    {
      TasksOfCarMembers(tasks, carId);
      TasksOfCarOrdered(tasks, carId);
      TasksOfCar(tasks, carId)
    }

    /**
     * createCar, with the registry client as the parameter `lookUp`. The
     * client is asked for the trimmed, upper-cased number; the row stores the
     * upper-cased input as given. A failed lookup and a registration number
     * already stored both end in LookupFailed.
     */
    method CreateCarUsing(regNr: string, lookUp: string -> Result<Vegvesen.VegvesenCar, Vegvesen.LookupError>)
      returns (r: Result<Car, ApiError>)
      requires Valid() && |regNr| >= 1
      modifies this
      ensures Valid()
      ensures r.Success? <==> lookUp(Vegvesen.RegNrKey(regNr)).Success? && !RegNrTaken(old(cars), Text.ToUpper(regNr))
      ensures r.Success? ==> var info := lookUp(Vegvesen.RegNrKey(regNr)).value;
        r.value == Car(old(nextCarId), Text.ToUpper(regNr), info.make, info.model, info.year, info.color)
      ensures r.Success? ==> cars == old(cars) + [r.value] && nextCarId == old(nextCarId) + 1
      ensures r.Failure? ==> r.error == LookupFailed && unchanged(this)
      ensures suggestions == old(suggestions) && tasks == old(tasks)
      ensures nextSuggestionId == old(nextSuggestionId) && nextTaskId == old(nextTaskId)
      ensures old(References()) ==> References()
    {
      var information := lookUp(Vegvesen.RegNrKey(regNr));
      if information.Failure? {
        return Failure(LookupFailed);
      }
      var stored := Text.ToUpper(regNr);
      if RegNrTaken(cars, stored) {
        return Failure(LookupFailed);
      }
      var car := Car(nextCarId, stored, information.value.make, information.value.model,
                     information.value.year, information.value.color);
      CarInsertKeepsValid(cars, suggestions, tasks, nextCarId, nextSuggestionId, nextTaskId, car);
      CarInsertKeepsReferences(cars, suggestions, tasks, car);
      cars := cars + [car];
      nextCarId := nextCarId + 1;
      r := Success(car);
    }

    /**
     * fetchAISuggestions, with the suggestion generator as the parameter
     * `suggest`, which hands back sanitised suggestions or fails. The
     * generator receives the stored car; every suggestion it returns is
     * appended as a new row of that car, after the rows already there.
     */
    method FetchAISuggestionsUsing(carId: int, suggest: Ai.CarInfo -> Result<seq<Ai.TaskSuggestion>, Ai.AiError>)
      returns (r: Result<seq<Suggestion>, ApiError>)
      requires Valid() && 1 <= carId
      requires forall car :: suggest(car).Success? ==> forall s :: s in suggest(car).value ==> Ai.IsSanitised(s)
      modifies this
      ensures Valid()
      ensures FindCar(old(cars), carId).None? ==> r == Failure(NotFound)
      ensures r.Success? <==>
        FindCar(old(cars), carId).Some? && suggest(FindCar(old(cars), carId).value).Success?
        && suggest(FindCar(old(cars), carId).value).value != []
      ensures FindCar(old(cars), carId).Some? && suggest(FindCar(old(cars), carId).value).Failure? ==>
        r == Failure(GenerationFailed(suggest(FindCar(old(cars), carId).value).error))
      ensures FindCar(old(cars), carId).Some? && suggest(FindCar(old(cars), carId).value) == Success([]) ==>
        r == Failure(EmptyInsert)
      ensures r.Success? ==> FindCar(old(cars), carId).Some?
      ensures r.Success? ==> var generated := suggest(FindCar(old(cars), carId).value);
        generated.Success? && generated.value != [] && r.value == SuggestionRows(carId, old(nextSuggestionId), generated.value)
      ensures r.Success? ==> suggestions == old(suggestions) + r.value && nextSuggestionId == old(nextSuggestionId) + |r.value|
      ensures r.Success? ==> forall s :: s in r.value ==> s.carId == carId && s.id >= old(nextSuggestionId)
      ensures r.Failure? ==> unchanged(this)
      ensures cars == old(cars) && tasks == old(tasks)
      ensures nextCarId == old(nextCarId) && nextTaskId == old(nextTaskId)
      ensures old(References()) ==> References()
    {
      var found := FindCar(cars, carId);
      if found.None? {
        return Failure(NotFound);
      }
      var generated := suggest(found.value);
      if generated.Failure? {
        return Failure(GenerationFailed(generated.error));
      }
      if |generated.value| == 0 {
        return Failure(EmptyInsert);
      }
      var rows := SuggestionRows(carId, nextSuggestionId, generated.value);
      SuggestionRowsFacts(carId, nextSuggestionId, generated.value);
      SuggestionInsertKeepsValid(cars, suggestions, tasks, nextCarId, nextSuggestionId, nextTaskId, rows);
      SuggestionInsertKeepsReferences(cars, suggestions, tasks, rows);
      suggestions := suggestions + rows;
      nextSuggestionId := nextSuggestionId + |rows|;
      r := Success(rows);
    }

    /**
     * createTask. Fails with QuotaExceeded, changing nothing, once the car
     * has MaxTasksPerCar tasks; otherwise appends one pending, not completed
     * task with a fresh id. Neither carId nor suggestionId is checked.
     */
    method CreateTask(
      carId: int, title: string, description: Option<string>,
      suggestionId: Option<int>, estimatedMinutes: Option<int>) returns (r: Result<Task, ApiError>)
      requires Valid() && TaskInputValid(carId, title, suggestionId, estimatedMinutes)
      modifies this
      ensures Valid()
      ensures r.Failure? <==> |TasksOfCar(old(tasks), carId)| >= MaxTasksPerCar
      ensures r.Failure? ==> r.error == QuotaExceeded && unchanged(this)
      ensures r.Success? ==>
        && r.value == NewTask(old(nextTaskId), carId, title, description, suggestionId, estimatedMinutes)
        && r.value.status == Pending && !r.value.completed
        && tasks == old(tasks) + [r.value] && nextTaskId == old(nextTaskId) + 1
        && |TasksOfCar(tasks, carId)| == |TasksOfCar(old(tasks), carId)| + 1
      ensures forall c :: |TasksOfCar(old(tasks), c)| <= MaxTasksPerCar ==> |TasksOfCar(tasks, c)| <= MaxTasksPerCar
      ensures cars == old(cars) && suggestions == old(suggestions)
      ensures nextCarId == old(nextCarId) && nextSuggestionId == old(nextSuggestionId)
      ensures old(QuotaHolds()) ==> QuotaHolds()
      ensures old(References()) && CarExists(cars, carId)
              && (suggestionId.Some? ==> SuggestionExists(suggestions, suggestionId.value))
              ==> References()
    {
      var existing := TasksOfCar(tasks, carId);
      if |existing| >= MaxTasksPerCar {
        return Failure(QuotaExceeded);
      }
      var task := NewTask(nextTaskId, carId, title, description, suggestionId, estimatedMinutes);
      InsertKeepsQuota(tasks, task);
      TaskInsertKeepsValid(cars, suggestions, tasks, nextCarId, nextSuggestionId, nextTaskId, task);
      TaskInsertKeepsReferences(cars, suggestions, tasks, task);
      tasks := tasks + [task];
      nextTaskId := nextTaskId + 1;
      r := Success(task);
    }

    /**
     * updateTaskStatus. Any status may be set on any task; completed takes
     * the explicit input when there is one and otherwise says whether the new
     * status is completed. Only that task's status and completed change.
     */
    method UpdateTaskStatus(taskId: int, status: TaskStatus, completed: Option<bool>) returns (r: Result<Task, ApiError>)
      requires Valid() && 1 <= taskId
      modifies this
      ensures Valid()
      ensures r.Success? <==> exists t :: t in old(tasks) && t.id == taskId
      ensures r.Failure? ==> r.error == NotFound && unchanged(this)
      ensures r.Success? ==> r.value == FindTask(old(tasks), taskId).value.(status := status, completed := CompletedFlag(status, completed))
      ensures r.Success? ==> tasks == SetTaskStatus(old(tasks), taskId, status, CompletedFlag(status, completed))
      ensures cars == old(cars) && suggestions == old(suggestions)
      ensures nextCarId == old(nextCarId) && nextSuggestionId == old(nextSuggestionId) && nextTaskId == old(nextTaskId)
      ensures old(References()) ==> References()
    {
      var flag := CompletedFlag(status, completed);
      var updated := SetTaskStatus(tasks, taskId, status, flag);
      FindAfterSetTaskStatus(tasks, taskId, status, flag);
      var returned := FindTask(updated, taskId);
      if returned.None? {
        SetTaskStatusMissingId(tasks, taskId, status, flag);
        return Failure(NotFound);
      }
      SetTaskStatusKeepsValid(cars, suggestions, tasks, nextCarId, nextSuggestionId, nextTaskId, taskId, status, flag);
      tasks := updated;
      r := Success(returned.value);
    }

    /**
     * deleteTaskSuggestion. Fails with NotFound when no suggestion has the id
     * and with InUse when a task refers to it, changing nothing either way;
     * otherwise removes that one suggestion.
     */
    method DeleteTaskSuggestion(id: int) returns (r: Result<(), ApiError>)
      requires Valid() && 1 <= id
      modifies this
      ensures Valid()
      ensures !SuggestionExists(old(suggestions), id) ==> r == Failure(NotFound)
      ensures SuggestionExists(old(suggestions), id) && |TasksOfSuggestion(old(tasks), id)| > 0 ==> r == Failure(InUse)
      ensures r.Success? <==> SuggestionExists(old(suggestions), id) && |TasksOfSuggestion(old(tasks), id)| == 0
      ensures r.Failure? ==> unchanged(this)
      ensures r.Success? ==>
        && suggestions == WithoutSuggestion(old(suggestions), id)
        && |suggestions| == |old(suggestions)| - 1
      ensures cars == old(cars) && tasks == old(tasks)
      ensures nextCarId == old(nextCarId) && nextSuggestionId == old(nextSuggestionId) && nextTaskId == old(nextTaskId)
      ensures old(References()) ==> References()
    {
      if !SuggestionExists(suggestions, id) {
        return Failure(NotFound);
      }
      var linked := TasksOfSuggestion(tasks, id);
      if |linked| > 0 {
        return Failure(InUse);
      }
      DeleteSuggestionKeepsValid(cars, suggestions, tasks, nextCarId, nextSuggestionId, nextTaskId, id);
      DeleteUnusedKeepsReferences(cars, suggestions, tasks, id);
      suggestions := WithoutSuggestion(suggestions, id);
      r := Success(());
    }
  }
}
