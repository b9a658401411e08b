/**
 * The router as the application wires it: createCar with the registry
 * client carLookUp, and fetchAISuggestions with the generator
 * generateTaskSuggestions, each over the store of the database.
 */
module App {
  import opened Wrappers
  import opened Schema
  import Text
  import Json
  import Ai
  import Vegvesen
  import opened Router

  /** createCar normalises the number and the client normalises it again; the second pass changes nothing. */
  lemma LookupKeyNormalisedOnce(regNr: string, registry: string -> Vegvesen.RegistryResponse)
    ensures Vegvesen.CarLookUp(Vegvesen.RegNrKey(regNr), registry) == Vegvesen.CarLookUp(regNr, registry)
  {
    Vegvesen.RegNrKeyIdempotent(regNr);
  }

  /** createCar with the registry client carLookUp, which normalises the number once more. */
  method CreateCar(store: Store, regNr: string, registry: string -> Vegvesen.RegistryResponse) returns (r: Result<Car, ApiError>)
    requires store.Valid() && |regNr| >= 1
    modifies store
    ensures store.Valid()
    ensures r.Success? <==> Vegvesen.CarLookUp(regNr, registry).Success? && !RegNrTaken(old(store.cars), Text.ToUpper(regNr))
    ensures r.Success? ==> var info := Vegvesen.CarLookUp(regNr, registry).value;
      r.value == Car(old(store.nextCarId), Text.ToUpper(regNr), info.make, info.model, info.year, info.color)
    ensures r.Success? ==> store.cars == old(store.cars) + [r.value] && store.nextCarId == old(store.nextCarId) + 1
    ensures r.Failure? ==> r.error == LookupFailed && unchanged(store)
    ensures store.suggestions == old(store.suggestions) && store.tasks == old(store.tasks)
    ensures store.nextSuggestionId == old(store.nextSuggestionId) && store.nextTaskId == old(store.nextTaskId)
    ensures old(store.References()) ==> store.References()
  {
    var lookUp := k => Vegvesen.CarLookUp(k, registry);
    assert lookUp(Vegvesen.RegNrKey(regNr)) == Vegvesen.CarLookUp(regNr, registry) by {
      LookupKeyNormalisedOnce(regNr, registry);
    }
    r := store.CreateCarUsing(regNr, lookUp);
  }

  /** fetchAISuggestions with the generator generateTaskSuggestions over a model reply. */
  method FetchAISuggestions(store: Store, carId: int, generate: Ai.CarInfo -> Option<Json.Json>) returns (r: Result<seq<Suggestion>, ApiError>)
    requires store.Valid() && 1 <= carId
    modifies store
    ensures store.Valid()
    ensures FindCar(old(store.cars), carId).None? ==> r == Failure(NotFound)
    ensures r.Success? <==>
      FindCar(old(store.cars), carId).Some? && Ai.GenerateTaskSuggestions(FindCar(old(store.cars), carId).value, generate).Success?
      && Ai.GenerateTaskSuggestions(FindCar(old(store.cars), carId).value, generate).value != []
    ensures FindCar(old(store.cars), carId).Some? && Ai.GenerateTaskSuggestions(FindCar(old(store.cars), carId).value, generate).Failure? ==>
      r == Failure(GenerationFailed(Ai.GenerateTaskSuggestions(FindCar(old(store.cars), carId).value, generate).error))
    ensures FindCar(old(store.cars), carId).Some? && Ai.GenerateTaskSuggestions(FindCar(old(store.cars), carId).value, generate) == Success([]) ==>
      r == Failure(EmptyInsert)
    ensures r.Success? ==> FindCar(old(store.cars), carId).Some?
    ensures r.Success? ==> var generated := Ai.GenerateTaskSuggestions(FindCar(old(store.cars), carId).value, generate);
      generated.Success? && generated.value != [] && r.value == SuggestionRows(carId, old(store.nextSuggestionId), generated.value)
    ensures r.Success? ==> store.suggestions == old(store.suggestions) + r.value && store.nextSuggestionId == old(store.nextSuggestionId) + |r.value|
    ensures r.Success? ==> forall s :: s in r.value ==> s.carId == carId && s.id >= old(store.nextSuggestionId)
    ensures r.Failure? ==> unchanged(store)
    ensures store.cars == old(store.cars) && store.tasks == old(store.tasks)
    ensures store.nextCarId == old(store.nextCarId) && store.nextTaskId == old(store.nextTaskId)
    ensures old(store.References()) ==> store.References()
  {
    r := store.FetchAISuggestionsUsing(carId, car => Ai.GenerateTaskSuggestions(car, generate));
  }
}
