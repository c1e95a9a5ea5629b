/**
 * The home screen and the add-food screen of Home.tsx: loading today's
 * ledger and its totals, the test-only reset, and `handleAdd`, which
 * appends the current selection to one meal.
 */
module Home {
  import opened Store
  import opened Catalog
  import opened Ledger
  import opened Selection

  /** The home screen's state: today's ledger as last loaded and its three
      totals (grams in tenths, calories in kcal). */
  class HomeScreen {
    const storage: MealStorage
    var meals: Day
    var totalProtein: int
    var totalCarbs: int
    var totalCalories: int

    /** The initial `useState` values. */
    constructor (storage: MealStorage)
      ensures this.storage == storage
      ensures meals == [] && totalProtein == 0 && totalCarbs == 0 && totalCalories == 0
    {
      this.storage := storage;
      meals := [];
      totalProtein, totalCarbs, totalCalories := 0, 0, 0;
    }

    /** `loadAndCompute`, run on mount and on every focus: the screen shows
        today's stored ledger and the totals folded from it. */
    method LoadAndCompute(today: CalendarDay)
      modifies this
      ensures meals == storage.LoadMealsForToday(today)
      ensures Macros(totalProtein, totalCarbs, totalCalories) == DayMacros(SampleFoods, meals)
    {
      var data := storage.LoadMealsForToday(today);
      meals := data;
      var totals := ComputeTotals(SampleFoods, data);
      totalProtein, totalCarbs, totalCalories := totals.protein, totals.carbs, totals.calories;
    }

    /** The confirmed branch of `handleResetMeals`. When `removeItem`
        succeeds, today's key is gone, the ledger is `{}` and the totals are
        zero; when it throws, nothing has been changed. */
    method ResetMeals(today: CalendarDay, removeFails: bool)
      modifies this, storage
      ensures !removeFails ==> storage.items == old(storage.items) - {TodayKey(today)}
      ensures !removeFails ==> storage.LoadMealsForToday(today) == []
      ensures !removeFails ==> meals == [] && totalProtein == 0 && totalCarbs == 0 && totalCalories == 0
      ensures removeFails ==> storage.items == old(storage.items)
      ensures removeFails ==> unchanged(this)
      ensures old(storage.Valid()) ==> storage.Valid()
    {
      if !removeFails {
        storage.RemoveItem(TodayKey(today));
        meals := [];
        totalProtein, totalCarbs, totalCalories := 0, 0, 0;
      }
    }
  }

  /** `route?.params?.meal ?? 'Refeição'` */
  function RouteMeal(param: Option<string>): (meal: string)
    ensures param.Some? ==> meal == param.value
    ensures param.None? ==> meal == "Refeição"
  {
    if param.Some? then param.value else "Refeição"
  }

  /** `handleAdd`: nothing happens while no portion is selected; otherwise
      the ledger under the key of `loadDay` is loaded, the selection is
      appended to the route's meal, and the result is saved under the key
      of `saveDay`. `loadMealsForToday` and `saveMealsForToday` each read
      the clock, so the two days differ when midnight passes between them. */
  method HandleAdd(storage: MealStorage, loadDay: CalendarDay, saveDay: CalendarDay, mealParam: Option<string>, selected: Counts)
    returns (added: bool)
    modifies storage
    ensures added <==> Total(selected) != 0
    ensures !added ==> storage.items == old(storage.items)
    ensures added ==> storage.items == old(storage.items)[TodayKey(saveDay) :=
      Json(AddToMeal(old(storage.LoadMealsForToday(loadDay)), RouteMeal(mealParam), SelectionItems(SampleFoods, selected)))]
    ensures old(storage.Valid()) ==> storage.Valid()
  {
    var meal := RouteMeal(mealParam);
    var totalSelected := Total(selected);
    if totalSelected == 0 {
      return false;
    }
    var items := SelectionItems(SampleFoods, selected);
    var existing := storage.LoadMealsForToday(loadDay);
    var currentList := Lookup(existing, meal);
    existing := Put(existing, meal, currentList + items);
    AddToMealLookup(storage.LoadMealsForToday(loadDay), meal, items, meal);
    storage.SaveMealsForToday(saveDay, existing);
    added := true;
  }

  /** When the clock stays on one day, an add rewrites that day's ledger
      and no other key; when it crosses midnight, the earlier day's key is
      left as it was and the later day's key receives the earlier day's
      ledger with the selection appended. */
  lemma AddAcrossMidnight(items: map<string, Raw<Day>>, loadDay: CalendarDay, saveDay: CalendarDay, written: Day)
    requires ValidDay(loadDay) && ValidDay(saveDay) && loadDay != saveDay
    ensures TodayKey(loadDay) in items ==> items[TodayKey(saveDay) := Json(written)][TodayKey(loadDay)] == items[TodayKey(loadDay)]
  {
    if TodayKey(loadDay) == TodayKey(saveDay) {
      TodayKeyInjective(loadDay, saveDay);
    }
  }

  /** What an add does to the ledger: the meal's list grows by one item per
      selected id, every other meal keeps its list, and the totals grow by
      exactly the selection's contribution. */
  lemma AddSelectionEffect(day: Day, meal: string, selected: Counts, other: string)
    ensures var r := AddToMeal(day, meal, SelectionItems(SampleFoods, selected));
      && Lookup(r, meal) == Lookup(day, meal) + SelectionItems(SampleFoods, selected)
      && (other != meal ==> Lookup(r, other) == Lookup(day, other))
      && DayMacros(SampleFoods, r) == Plus(DayMacros(SampleFoods, day), ItemsMacros(SampleFoods, SelectionItems(SampleFoods, selected)))
  {
    var items := SelectionItems(SampleFoods, selected);
    AddToMealLookup(day, meal, items, other);
    AddToMealTotals(SampleFoods, day, meal, items);
  }

  /** With a positive selection, an add happens exactly when something is
      selected. */
  lemma AddHappensIffSelected(selected: Counts)
    requires Positive(selected)
    ensures Total(selected) != 0 <==> selected != map[]
  {
    TotalZeroIffEmpty(selected);
  }
}
