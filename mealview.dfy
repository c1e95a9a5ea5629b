/**
 * The one-line summary under each meal on the home screen
 * (`renderMealItems`): every item's label joined with ' • ' and cut to
 * 36 characters.
 */
module MealView {
  import opened Store
  import opened Text
  import opened Catalog
  import opened Ledger

  const Separator := " • "
  const Ellipsis := "..."
  const SummaryChars := 36
  const EmptyMealText := "Nenhum alimento ainda"

  /** `joinAndTruncate(names, maxChars)`: the joined names when they fit;
      otherwise the first `maxChars - 3` characters followed by '...'. For
      `maxChars` below 3 the slice end is negative and counts back from
      the end of the joined string. */
  function JoinAndTruncate(names: seq<string>, maxChars: int): (r: string)
    ensures |Join(names, Separator)| <= maxChars ==> r == Join(names, Separator)
    ensures |Join(names, Separator)| > maxChars ==>
      && 3 <= |r| <= |Join(names, Separator)| + 3 && r[|r| - 3..] == Ellipsis
      && r[..|r| - 3] == Join(names, Separator)[..|r| - 3]
    ensures |Join(names, Separator)| > maxChars && maxChars >= 3 ==> |r| == maxChars
    ensures |Join(names, Separator)| > maxChars && maxChars < 3 ==>
      |r| == 3 + (if |Join(names, Separator)| + maxChars - 3 < 0 then 0 else |Join(names, Separator)| + maxChars - 3)
  {
    var joined := Join(names, Separator);
    if |joined| <= maxChars then joined
    else SliceTo(joined, maxChars - 3) + Ellipsis
  }

  /** With the limit of at least 3, the result never exceeds it when it has
      to be cut, and it is cut only when the joined text is too long. */
  lemma TruncateBound(names: seq<string>, maxChars: int)
    requires maxChars >= 3
    ensures |JoinAndTruncate(names, maxChars)| <= maxChars
    ensures JoinAndTruncate(names, maxChars) != Join(names, Separator) ==> |Join(names, Separator)| > maxChars
  {
  }

  /** `food ? food.name : it.name` */
  function DisplayName(foods: seq<FoodItem>, it: SavedMealItem): (name: string)
    ensures Find(foods, it.id).Some? ==> name == Find(foods, it.id).value.name
    ensures Find(foods, it.id).None? ==> name == it.name
  {
    match Find(foods, it.id)
    case Some(f) => f.name
    case None => it.name
  }

  /** One item's label: the catalog name when the id is known, otherwise the
      stored name, followed by ' x' and the quantity when it exceeds one. */
  function MealLabel(foods: seq<FoodItem>, it: SavedMealItem): (shown: string)
    ensures var name := DisplayName(foods, it);
      && |shown| >= |name| && shown[..|name|] == name
      && (it.qty.Some? && it.qty.value > 1 ==> shown[|name|..] == " x" + DecimalString(it.qty.value))
      && (!(it.qty.Some? && it.qty.value > 1) ==> shown == name)
  {
    var displayName := DisplayName(foods, it);
    if it.qty.Some? && it.qty.value > 1 then displayName + " x" + DecimalString(it.qty.value)
    else displayName
  }

  /** The quantity can be read back from a label that shows one. */
  lemma LabelQuantityRoundTrip(foods: seq<FoodItem>, it: SavedMealItem)
    requires it.qty.Some? && it.qty.value > 1
    ensures var name := DisplayName(foods, it);
      var digits := MealLabel(foods, it)[|name| + 2..];
      && (forall i :: 0 <= i < |digits| ==> IsDigit(digits[i]))
      && ParseDecimal(digits) == it.qty.value
  {
    var name := DisplayName(foods, it);
    var shown := MealLabel(foods, it);
    assert shown[|name| + 2..] == DecimalString(it.qty.value);
    DecimalRoundTrip(it.qty.value);
  }

  function Labels(foods: seq<FoodItem>, items: seq<SavedMealItem>): (names: seq<string>)
    ensures |names| == |items|
    ensures forall i :: 0 <= i < |items| ==> names[i] == MealLabel(foods, items[i])
  {
    seq(|items|, i requires 0 <= i < |items| => MealLabel(foods, items[i]))
  }

  /** `renderMealItems(mealName)`: the placeholder for a meal with no items,
      else the labels joined and cut to 36 characters. */
  function MealSummary(foods: seq<FoodItem>, day: Day, meal: string): (text: string)
    ensures Lookup(day, meal) == [] ==> text == EmptyMealText
    ensures Lookup(day, meal) != [] ==> |text| <= SummaryChars
    ensures Lookup(day, meal) != [] && |Join(Labels(foods, Lookup(day, meal)), Separator)| <= SummaryChars ==>
      text == Join(Labels(foods, Lookup(day, meal)), Separator)
  {
    var items := Lookup(day, meal);
    if |items| == 0 then EmptyMealText
    else JoinAndTruncate(Labels(foods, items), SummaryChars)
  }
}
