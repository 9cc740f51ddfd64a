/** The meal store's reducer (src/reducers/mealReducer.js): three fetched
    resources, each with its data, loading flag and error, plus the search
    results. */
module MealReducer {
  import opened Js

  datatype MealState = MealState(
    categories: Value, categoryLoading: bool, categoryError: Value,
    categoryMeals: Value, categoryMealsLoading: bool, categoryMealsError: Value,
    meal: Value, mealLoading: bool, mealError: Value,
    searchResults: Value, searchLoading: bool, searchError: Value, hasSearched: bool)

  /** The three resources fetched with a `*_BEGIN`, `*_SUCCESS`, `*_ERROR`
      triple of actions. */
  datatype Resource = Categories | CategoryMeals | SingleMeal

  datatype Action =
    | Begin(resource: Resource)
    | Succeeded(resource: Resource, payload: Value)
    | Failed(resource: Resource, payload: Value)
    | SetSearchResults(payload: Value)
    | ClearMeals
    /** Any other action type, such as `'CLEAR_CATEGORY_MEALS'`. */
    | Other(kind: string)

  /** The data, loading flag and error of one resource. */
  datatype Slot = Slot(data: Value, loading: bool, error: Value)

  /** The search part of the state. */
  datatype Search = Search(results: Value, loading: bool, error: Value, hasSearched: bool)

  function SlotOf(s: MealState, r: Resource): Slot {
    match r
    case Categories => Slot(s.categories, s.categoryLoading, s.categoryError)
    case CategoryMeals => Slot(s.categoryMeals, s.categoryMealsLoading, s.categoryMealsError)
    case SingleMeal => Slot(s.meal, s.mealLoading, s.mealError)
  }

  function SearchOf(s: MealState): Search {
    Search(s.searchResults, s.searchLoading, s.searchError, s.hasSearched)
  }

  /** `initialState`. */
  const Initial: MealState :=
    MealState(List([]), false, Null, List([]), false, Null, Null, false, Null, Null, false, Null, false)

  /** Nothing is loading and nothing has failed at the start. */
  lemma InitialIsIdle(r: Resource)
    ensures !SlotOf(Initial, r).loading && SlotOf(Initial, r).error == Null
    ensures SearchOf(Initial) == Search(Null, false, Null, false)
  {
  }

  /** The state with resource `r`'s slot replaced. */
  function WithSlot(s: MealState, r: Resource, slot: Slot): (t: MealState)
    ensures SlotOf(t, r) == slot && SearchOf(t) == SearchOf(s)
    ensures forall other :: other != r ==> SlotOf(t, other) == SlotOf(s, other)
  {
    match r
    case Categories => s.(categories := slot.data, categoryLoading := slot.loading, categoryError := slot.error)
    case CategoryMeals => s.(categoryMeals := slot.data, categoryMealsLoading := slot.loading, categoryMealsError := slot.error)
    case SingleMeal => s.(meal := slot.data, mealLoading := slot.loading, mealError := slot.error)
  }

  /** `mealReducer(state, action)`. */
  function Reduce(s: MealState, a: Action): (t: MealState)
    ensures t.searchLoading == s.searchLoading
    ensures forall r :: SlotOf(t, r).loading != SlotOf(s, r).loading ==>
              (a.Begin? || a.Succeeded? || a.Failed?) && a.resource == r
  {
    match a
    case Begin(r) =>
      WithSlot(s, r, SlotOf(s, r).(loading := true, error := Null))
    case Succeeded(r, p) =>
      WithSlot(s, r, SlotOf(s, r).(loading := false, data := p))
    case Failed(r, p) =>
      WithSlot(s, r, SlotOf(s, r).(loading := false, error := p))
    case SetSearchResults(p) =>
      s.(searchResults := p, hasSearched := true)
    case ClearMeals =>
      s.(categoryMeals := List([]), meal := Null, searchResults := Null, hasSearched := false,
         categoryMealsError := Null, mealError := Null, searchError := Null)
    case Other(_) =>
      s
  }

  /** A `*_BEGIN` action marks its resource loading with no error; its data,
      the other resources and the search are untouched. */
  lemma ReduceBegin(s: MealState, r: Resource)
    ensures SlotOf(Reduce(s, Begin(r)), r) == Slot(SlotOf(s, r).data, true, Null)
    ensures forall other :: other != r ==> SlotOf(Reduce(s, Begin(r)), other) == SlotOf(s, other)
    ensures SearchOf(Reduce(s, Begin(r))) == SearchOf(s)
  {
  }

  /** A `*_SUCCESS` action stores its payload and stops loading; the error
      is kept as it was. */
  lemma ReduceSucceeded(s: MealState, r: Resource, p: Value)
    ensures SlotOf(Reduce(s, Succeeded(r, p)), r) == Slot(p, false, SlotOf(s, r).error)
    ensures forall other :: other != r ==> SlotOf(Reduce(s, Succeeded(r, p)), other) == SlotOf(s, other)
    ensures SearchOf(Reduce(s, Succeeded(r, p))) == SearchOf(s)
  {
  }

  /** A `*_ERROR` action stores its payload as the error and stops loading;
      the data is kept as it was. */
  lemma ReduceFailed(s: MealState, r: Resource, p: Value)
    ensures SlotOf(Reduce(s, Failed(r, p)), r) == Slot(SlotOf(s, r).data, false, p)
    ensures forall other :: other != r ==> SlotOf(Reduce(s, Failed(r, p)), other) == SlotOf(s, other)
    ensures SearchOf(Reduce(s, Failed(r, p))) == SearchOf(s)
  {
  }

  /** `SET_SEARCH_RESULTS` stores the results and records that a search was
      made; nothing else changes. */
  lemma ReduceSetSearchResults(s: MealState, p: Value)
    ensures SearchOf(Reduce(s, SetSearchResults(p))) == SearchOf(s).(results := p, hasSearched := true)
    ensures forall r :: SlotOf(Reduce(s, SetSearchResults(p)), r) == SlotOf(s, r)
  {
  }

  /** `CLEAR_MEALS` empties the category meals, the meal and the search and
      clears their errors; the categories and every loading flag are kept. */
  lemma ReduceClearMeals(s: MealState)
    ensures SlotOf(Reduce(s, ClearMeals), Categories) == SlotOf(s, Categories)
    ensures SlotOf(Reduce(s, ClearMeals), CategoryMeals) == Slot(List([]), s.categoryMealsLoading, Null)
    ensures SlotOf(Reduce(s, ClearMeals), SingleMeal) == Slot(Null, s.mealLoading, Null)
    ensures SearchOf(Reduce(s, ClearMeals)) == Search(Null, s.searchLoading, Null, false)
  {
  }

  /** An action type the reducer does not know returns the state itself. */
  lemma ReduceOther(s: MealState, kind: string)
    ensures Reduce(s, Other(kind)) == s
  {
  }

  /** Beginning and then succeeding leaves the resource loaded, idle and
      without error. */
  lemma BeginThenSucceed(s: MealState, r: Resource, p: Value)
    ensures SlotOf(Reduce(Reduce(s, Begin(r)), Succeeded(r, p)), r) == Slot(p, false, Null)
  {
    ReduceBegin(s, r);
    ReduceSucceeded(Reduce(s, Begin(r)), r, p);
  }

  /** Beginning and then failing keeps the old data and records the error. */
  lemma BeginThenFail(s: MealState, r: Resource, p: Value)
    ensures SlotOf(Reduce(Reduce(s, Begin(r)), Failed(r, p)), r) == Slot(SlotOf(s, r).data, false, p)
  {
    ReduceBegin(s, r);
    ReduceFailed(Reduce(s, Begin(r)), r, p);
  }

  /** Dispatching the same action twice changes nothing more than once. */
  lemma ReduceIdempotent(s: MealState, a: Action)
    ensures Reduce(Reduce(s, a), a) == Reduce(s, a)
  {
    match a
    case Begin(r) =>
      var slot := SlotOf(s, r).(loading := true, error := Null);
      WithSlotTwice(s, r, slot, slot);
    case Succeeded(r, p) =>
      var slot := SlotOf(s, r).(loading := false, data := p);
      WithSlotTwice(s, r, slot, slot);
    case Failed(r, p) =>
      var slot := SlotOf(s, r).(loading := false, error := p);
      WithSlotTwice(s, r, slot, slot);
    case SetSearchResults(_) =>
    case ClearMeals =>
    case Other(_) =>
  }

  /** Replacing a slot twice keeps only the second replacement. */
  lemma WithSlotTwice(s: MealState, r: Resource, first: Slot, second: Slot)
    ensures WithSlot(WithSlot(s, r, first), r, second) == WithSlot(s, r, second)
  {
  }
}
