/**
 * The three tables of the register (cars, task_suggestions, tasks), the
 * TaskStatus enumeration, and the constraints the schema declares: positive
 * auto-increment keys, the unique registration number, nullability and the
 * foreign keys. The created_at timestamps are not modelled.
 */
module Schema {
  import opened Wrappers

  /** The status column, stored as the text "pending", "in_progress" or "completed". */
  datatype TaskStatus = Pending | InProgress | Completed

  /** A row of `cars`; color is the one nullable column. */
  datatype Car = Car(id: int, regNr: string, make: string, model: string, year: int, color: Option<string>)

  /** A row of `task_suggestions`; description and estimatedMinutes are nullable. */
  datatype Suggestion = Suggestion(
    id: int,
    carId: int,
    title: string,
    description: Option<string>,
    estimatedMinutes: Option<int>)

  /** A row of `tasks`; description, suggestionId and estimatedMinutes are nullable. */
  datatype Task = Task(
    id: int,
    carId: int,
    title: string,
    description: Option<string>,
    suggestionId: Option<int>,
    status: TaskStatus,
    completed: bool,
    estimatedMinutes: Option<int>)

  /** The column defaults of a new task: status pending, completed false. */
  function NewTask(
    id: int, carId: int, title: string, description: Option<string>,
    suggestionId: Option<int>, estimatedMinutes: Option<int>): (t: Task)
    ensures t.status == Pending && !t.completed
    ensures t.id == id && t.carId == carId && t.title == title && t.description == description
    ensures t.suggestionId == suggestionId && t.estimatedMinutes == estimatedMinutes
  {
    Task(id, carId, title, description, suggestionId, Pending, false, estimatedMinutes)
  }

  // `id integer primary key autoincrement`: every row has a positive id below the
  // table's next id, and rows are stored in the order (and so the id order) of insertion.

  ghost predicate CarKeysValid(cars: seq<Car>, nextId: int) {
    && 1 <= nextId
    && (forall i :: 0 <= i < |cars| ==> 1 <= cars[i].id < nextId)
    && (forall i, j :: 0 <= i < j < |cars| ==> cars[i].id < cars[j].id)
  }

  ghost predicate SuggestionKeysValid(suggestions: seq<Suggestion>, nextId: int) {
    && 1 <= nextId
    && (forall i :: 0 <= i < |suggestions| ==> 1 <= suggestions[i].id < nextId)
    && (forall i, j :: 0 <= i < j < |suggestions| ==> suggestions[i].id < suggestions[j].id)
  }

  ghost predicate TaskKeysValid(tasks: seq<Task>, nextId: int) {
    && 1 <= nextId
    && (forall i :: 0 <= i < |tasks| ==> 1 <= tasks[i].id < nextId)
    && (forall i, j :: 0 <= i < j < |tasks| ==> tasks[i].id < tasks[j].id)
  }

  /** The unique index on cars.reg_nr would reject a row with this registration number. */
  predicate RegNrTaken(cars: seq<Car>, regNr: string) {
    exists i | 0 <= i < |cars| :: cars[i].regNr == regNr
  }

  ghost predicate RegNrUnique(cars: seq<Car>) {
    forall i, j :: 0 <= i < j < |cars| ==> cars[i].regNr != cars[j].regNr
  }

  /** Some car has this id: what the foreign keys on car_id refer to. */
  predicate CarExists(cars: seq<Car>, id: int) {
    exists i | 0 <= i < |cars| :: cars[i].id == id
  }

  /** Some suggestion has this id: what tasks.suggestion_id refers to. */
  predicate SuggestionExists(suggestions: seq<Suggestion>, id: int) {
    exists i | 0 <= i < |suggestions| :: suggestions[i].id == id
  }

  /** Every foreign key of the schema resolves. */
  ghost predicate ReferencesResolve(cars: seq<Car>, suggestions: seq<Suggestion>, tasks: seq<Task>) {
    && (forall s :: s in suggestions ==> CarExists(cars, s.carId))
    && (forall t :: t in tasks ==> CarExists(cars, t.carId))
    && (forall t :: t in tasks && t.suggestionId.Some? ==> SuggestionExists(suggestions, t.suggestionId.value))
  }
}
