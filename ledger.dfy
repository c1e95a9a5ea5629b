/**
 * The daily meal ledger of Home.tsx: the record stored under today's key,
 * the nutrient totals folded from it against the catalog, and the storage
 * that holds one record per day.
 *
 * A day's record is the JavaScript object `{ [meal]: SavedMealItem[] }`.
 * It is kept as a sequence of slots in the object's key order, which for
 * meal names is insertion order: `Object.values` walks it in that order
 * and assigning a new meal appends a slot at the end.
 */
module Ledger {
  import opened Store
  import opened Text
  import opened Catalog

  /** One logged item, `{ id, name, qty }`; `qty` may be missing in what is
      read back from storage. */
  datatype SavedMealItem = SavedMealItem(id: int, name: string, qty: Option<int>)

  datatype Slot = Slot(meal: string, items: seq<SavedMealItem>)

  type Day = seq<Slot>

  /** The keys of a JavaScript object are distinct. */
  predicate DistinctMeals(day: Day) {
    forall i, j :: 0 <= i < j < |day| ==> day[i].meal != day[j].meal
  }

  /** Where `meal` sits in the record: the index of its slot, or -1. */
  function IndexOf(day: Day, meal: string): (k: int)
    ensures -1 <= k < |day|
    ensures k == -1 <==> forall i :: 0 <= i < |day| ==> day[i].meal != meal
    ensures k >= 0 ==> day[k].meal == meal && forall i :: 0 <= i < k ==> day[i].meal != meal
  {
    if day == [] then -1
    else if day[0].meal == meal then 0
    else
      var k := IndexOf(day[1..], meal);
      assert forall i :: 1 <= i < |day| ==> day[i] == day[1..][i - 1];
      if k == -1 then -1 else k + 1
  }

  /** `day[meal] ?? []` */
  function Lookup(day: Day, meal: string): (items: seq<SavedMealItem>)
  {
    var k := IndexOf(day, meal);
    if k < 0 then [] else day[k].items
  }

  /** `day[meal] = items`: an existing meal keeps its place, a new one goes
      last. */
  function Put(day: Day, meal: string, items: seq<SavedMealItem>): (r: Day)
    ensures |r| == |day| + (if IndexOf(day, meal) < 0 then 1 else 0)
    ensures forall i :: 0 <= i < |r| ==> r[i].meal == (if i < |day| then day[i].meal else meal)
    ensures forall i :: 0 <= i < |day| && i != IndexOf(day, meal) ==> r[i] == day[i]
  {
    var k := IndexOf(day, meal);
    if k < 0 then day + [Slot(meal, items)] else day[k := Slot(meal, items)]
  }

  /** Assigning a meal replaces that meal's list and no other, and the
      record still has one entry per meal. */
  lemma LookupPut(day: Day, meal: string, items: seq<SavedMealItem>, other: string)
    ensures Lookup(Put(day, meal, items), meal) == items
    ensures other != meal ==> Lookup(Put(day, meal, items), other) == Lookup(day, other)
    ensures DistinctMeals(day) ==> DistinctMeals(Put(day, meal, items))
  {
    var r := Put(day, meal, items);
    var k := IndexOf(day, meal);
    assert forall i :: 0 <= i < |r| ==> r[i].meal == (if i < |day| then day[i].meal else meal);
    var k' := IndexOf(r, meal);
    if k < 0 {
      assert forall i :: 0 <= i < |day| ==> r[i].meal != meal;
      assert r[|day|].meal == meal;
    } else {
      assert forall i :: 0 <= i < k ==> r[i].meal != meal;
      assert r[k].meal == meal;
    }
    assert k' == if k < 0 then |day| else k;
    if other != meal {
      var j := IndexOf(day, other);
      var j' := IndexOf(r, other);
      assert j' == j;
    }
  }

  /** Protein and carbohydrate in tenths of a gram, calories in kcal. */
  datatype Macros = Macros(protein: int, carbs: int, calories: int)

  const Zero := Macros(0, 0, 0)

  function Plus(a: Macros, b: Macros): Macros {
    Macros(a.protein + b.protein, a.carbs + b.carbs, a.calories + b.calories)
  }

  /** `Plus` is a commutative monoid with unit `Zero`. */
  lemma PlusLaws(a: Macros, b: Macros, c: Macros)
    ensures Plus(a, Zero) == a && Plus(Zero, a) == a
    ensures Plus(a, b) == Plus(b, a)
    ensures Plus(Plus(a, b), c) == Plus(a, Plus(b, c))
  {
  }

  lemma PlusZero(a: Macros)
    ensures Plus(a, Zero) == a
  {
  }

  lemma PlusExchange(pre: Macros, a: Macros, b: Macros, post: Macros)
    ensures Plus(Plus(Plus(pre, b), post), a) == Plus(Plus(Plus(pre, a), post), b)
  {
  }

  function OrZero(v: Option<int>): int {
    if v.Some? then v.value else 0
  }

  /** `it.qty ?? 1` */
  function Quantity(it: SavedMealItem): int {
    if it.qty.Some? then it.qty.value else 1
  }

  /** What one item adds to the day: nothing when its id is not in the
      catalog, otherwise each macro (0 when missing) times the quantity. */
  function ItemMacros(foods: seq<FoodItem>, it: SavedMealItem): Macros {
    match Find(foods, it.id)
    case None => Zero
    case Some(f) =>
      Macros(OrZero(f.protein) * Quantity(it), OrZero(f.carbs) * Quantity(it), OrZero(f.cal) * Quantity(it))
  }

  /** The sum over a meal's items. */
  function ItemsMacros(foods: seq<FoodItem>, items: seq<SavedMealItem>): Macros {
    if items == [] then Zero else Plus(ItemMacros(foods, items[0]), ItemsMacros(foods, items[1..]))
  }

  /** The sum over every slot of the day and every item in it. */
  function DayMacros(foods: seq<FoodItem>, day: Day): Macros {
    if day == [] then Zero else Plus(ItemsMacros(foods, day[0].items), DayMacros(foods, day[1..]))
  }

  lemma {:induction false} ItemsMacrosAppend(foods: seq<FoodItem>, a: seq<SavedMealItem>, b: seq<SavedMealItem>)
    ensures ItemsMacros(foods, a + b) == Plus(ItemsMacros(foods, a), ItemsMacros(foods, b))
  {
    if a == [] {
      assert a + b == b;
    } else {
      assert (a + b)[1..] == a[1..] + b;
      ItemsMacrosAppend(foods, a[1..], b);
    }
  }

  lemma {:induction false} DayMacrosAppend(foods: seq<FoodItem>, a: Day, b: Day)
    ensures DayMacros(foods, a + b) == Plus(DayMacros(foods, a), DayMacros(foods, b))
  {
    if a == [] {
      assert a + b == b;
    } else {
      assert (a + b)[1..] == a[1..] + b;
      DayMacrosAppend(foods, a[1..], b);
    }
  }


  lemma ItemsMacrosSingle(foods: seq<FoodItem>, it: SavedMealItem)
    ensures ItemsMacros(foods, [it]) == ItemMacros(foods, it)
  {
    assert [it][1..] == [];
  }

  lemma ItemsMacrosRemove(foods: seq<FoodItem>, items: seq<SavedMealItem>, k: nat)
    requires k < |items|
    ensures ItemsMacros(foods, items) == Plus(ItemMacros(foods, items[k]), ItemsMacros(foods, items[..k] + items[k + 1..]))
  {
    assert items == items[..k] + [items[k]] + items[k + 1..];
    ItemsMacrosAppend(foods, items[..k] + [items[k]], items[k + 1..]);
    ItemsMacrosAppend(foods, items[..k], [items[k]]);
    ItemsMacrosAppend(foods, items[..k], items[k + 1..]);
    ItemsMacrosSingle(foods, items[k]);
    PlusLaws(ItemsMacros(foods, items[..k]), ItemMacros(foods, items[k]), ItemsMacros(foods, items[k + 1..]));
    PlusLaws(ItemMacros(foods, items[k]), ItemsMacros(foods, items[..k]), ItemsMacros(foods, items[k + 1..]));
  }

  /** Taking the first element of `a` out of `b`, wherever it sits, leaves
      the same multiset as the rest of `a`. */
  lemma MultisetRemoveFirst<T>(a: seq<T>, b: seq<T>, k: nat)
    requires multiset(a) == multiset(b) && a != [] && k < |b| && b[k] == a[0]
    ensures multiset(a[1..]) == multiset(b[..k] + b[k + 1..])
  {
    var rest := b[..k] + b[k + 1..];
    assert b == b[..k] + [b[k]] + b[k + 1..];
    assert a == [a[0]] + a[1..];
    var tail, others := multiset(a[1..]), multiset(rest);
    assert multiset(b) == others + multiset{a[0]};
    assert multiset(a) == tail + multiset{a[0]};
    forall e ensures tail[e] == others[e] {
      assert (tail + multiset{a[0]})[e] == (others + multiset{a[0]})[e];
    }
  }

  /** A meal's totals do not depend on the order of its items: any
      rearrangement of the same items gives the same sums. */
  lemma {:induction false} ItemOrderIrrelevant(foods: seq<FoodItem>, a: seq<SavedMealItem>, b: seq<SavedMealItem>)
    requires multiset(a) == multiset(b)
    ensures ItemsMacros(foods, a) == ItemsMacros(foods, b)
    decreases |a|
  {
    if a != [] {
      assert a[0] in multiset(b);
      var k :| 0 <= k < |b| && b[k] == a[0];
      var rest := b[..k] + b[k + 1..];
      MultisetRemoveFirst(a, b, k);
      ItemOrderIrrelevant(foods, a[1..], rest);
      ItemsMacrosRemove(foods, b, k);
    } else {
      assert |b| == |multiset(b)| == 0;
    }
  }

  lemma DayMacrosRemove(foods: seq<FoodItem>, day: Day, k: nat)
    requires k < |day|
    ensures DayMacros(foods, day) == Plus(ItemsMacros(foods, day[k].items), DayMacros(foods, day[..k] + day[k + 1..]))
  {
    assert day == day[..k] + [day[k]] + day[k + 1..];
    DayMacrosAppend(foods, day[..k] + [day[k]], day[k + 1..]);
    DayMacrosAppend(foods, day[..k], [day[k]]);
    DayMacrosAppend(foods, day[..k], day[k + 1..]);
    assert [day[k]][1..] == [];
    var pre, mid, post := DayMacros(foods, day[..k]), ItemsMacros(foods, day[k].items), DayMacros(foods, day[k + 1..]);
    PlusLaws(mid, Zero, Zero);
    PlusLaws(pre, mid, post);
    PlusLaws(mid, pre, post);
  }

  /** The day's totals do not depend on the order of its slots: any
      rearrangement of the same slots gives the same sums. */
  lemma {:induction false} SlotOrderIrrelevant(foods: seq<FoodItem>, a: Day, b: Day)
    requires multiset(a) == multiset(b)
    ensures DayMacros(foods, a) == DayMacros(foods, b)
    decreases |a|
  {
    if a != [] {
      assert a[0] in multiset(b);
      var k :| 0 <= k < |b| && b[k] == a[0];
      var rest := b[..k] + b[k + 1..];
      MultisetRemoveFirst(a, b, k);
      SlotOrderIrrelevant(foods, a[1..], rest);
      DayMacrosRemove(foods, b, k);
    } else {
      assert |b| == |multiset(b)| == 0;
    }
  }

  /** An item whose id is not in the catalog contributes nothing. */
  lemma UnknownItemIsZero(foods: seq<FoodItem>, it: SavedMealItem)
    requires forall i :: 0 <= i < |foods| ==> foods[i].id != it.id
    ensures ItemMacros(foods, it) == Zero
  {
  }

  /** Dropping an unknown item into a meal adds nothing and leaves every
      other item's contribution in place. */
  lemma UnknownItemSkipped(foods: seq<FoodItem>, before: seq<SavedMealItem>, it: SavedMealItem, after: seq<SavedMealItem>)
    requires forall i :: 0 <= i < |foods| ==> foods[i].id != it.id
    ensures ItemsMacros(foods, before + [it] + after) == Plus(ItemsMacros(foods, before), ItemsMacros(foods, after))
  {
    ItemsMacrosAppend(foods, before + [it], after);
    ItemsMacrosAppend(foods, before, [it]);
    ItemsMacrosSingle(foods, it);
    UnknownItemIsZero(foods, it);
    var b, a := ItemsMacros(foods, before), ItemsMacros(foods, after);
    assert ItemsMacros(foods, before + [it]) == Plus(b, Zero);
    PlusLaws(b, Zero, Zero);
  }

  /** `existing[meal] = [...currentList, ...items]` */
  function AddToMeal(day: Day, meal: string, items: seq<SavedMealItem>): Day {
    Put(day, meal, Lookup(day, meal) + items)
  }

  /** Adding to a meal appends to that meal's list, keeps every other meal's
      list and keeps one entry per meal. */
  lemma AddToMealLookup(day: Day, meal: string, items: seq<SavedMealItem>, other: string)
    ensures Lookup(AddToMeal(day, meal, items), meal) == Lookup(day, meal) + items
    ensures other != meal ==> Lookup(AddToMeal(day, meal, items), other) == Lookup(day, other)
    ensures DistinctMeals(day) ==> DistinctMeals(AddToMeal(day, meal, items))
  {
    LookupPut(day, meal, Lookup(day, meal) + items, other);
  }

  /** Replacing one slot changes the day's totals by the difference of the
      two slots' totals. */
  lemma DayMacrosUpdate(foods: seq<FoodItem>, day: Day, k: nat, s: Slot)
    requires k < |day|
    ensures Plus(DayMacros(foods, day[k := s]), ItemsMacros(foods, day[k].items))
         == Plus(DayMacros(foods, day), ItemsMacros(foods, s.items))
  {
    assert day == day[..k] + [day[k]] + day[k + 1..];
    assert day[k := s] == day[..k] + [s] + day[k + 1..];
    DayMacrosAppend(foods, day[..k] + [day[k]], day[k + 1..]);
    DayMacrosAppend(foods, day[..k], [day[k]]);
    DayMacrosAppend(foods, day[..k] + [s], day[k + 1..]);
    DayMacrosAppend(foods, day[..k], [s]);
    assert [s][1..] == [] && [day[k]][1..] == [];
    var pre, post := DayMacros(foods, day[..k]), DayMacros(foods, day[k + 1..]);
    var old_, new_ := ItemsMacros(foods, day[k].items), ItemsMacros(foods, s.items);
    PlusLaws(old_, Zero, Zero);
    PlusLaws(new_, Zero, Zero);
    assert DayMacros(foods, day) == Plus(Plus(pre, old_), post);
    assert DayMacros(foods, day[k := s]) == Plus(Plus(pre, new_), post);
    PlusExchange(pre, old_, new_, post);
  }

  /** Adding items to any meal raises the day's totals by exactly those
      items' contributions. */
  lemma AddToMealTotals(foods: seq<FoodItem>, day: Day, meal: string, items: seq<SavedMealItem>)
    ensures DayMacros(foods, AddToMeal(day, meal, items)) == Plus(DayMacros(foods, day), ItemsMacros(foods, items))
  {
    var k := IndexOf(day, meal);
    if k < 0 {
      assert Lookup(day, meal) + items == items;
      assert AddToMeal(day, meal, items) == day + [Slot(meal, items)];
      DayMacrosAppend(foods, day, [Slot(meal, items)]);
      assert [Slot(meal, items)][1..] == [];
      PlusLaws(ItemsMacros(foods, items), Zero, Zero);
    } else {
      assert AddToMeal(day, meal, items) == day[k := Slot(meal, day[k].items + items)];
      ItemsMacrosAppend(foods, day[k].items, items);
      DayMacrosUpdate(foods, day, k, Slot(meal, day[k].items + items));
    }
  }

  /** Two additions give the same totals in either order. */
  lemma AdditionsCommute(foods: seq<FoodItem>, day: Day, m1: string, e1: seq<SavedMealItem>, m2: string, e2: seq<SavedMealItem>)
    ensures DayMacros(foods, AddToMeal(AddToMeal(day, m1, e1), m2, e2))
         == DayMacros(foods, AddToMeal(AddToMeal(day, m2, e2), m1, e1))
  {
    AddToMealTotals(foods, day, m1, e1);
    AddToMealTotals(foods, AddToMeal(day, m1, e1), m2, e2);
    AddToMealTotals(foods, day, m2, e2);
    AddToMealTotals(foods, AddToMeal(day, m2, e2), m1, e1);
  }

  /** `computeTotals`: the `forEach` over `Object.values(mealsSaved)`,
      accumulating `p`, `c` and `cal` slot by slot. */
  method ComputeTotals(foods: seq<FoodItem>, day: Day) returns (totals: Macros)
    ensures totals == DayMacros(foods, day)
  {
    var p, c, cal := 0, 0, 0;
    var i := 0;
    while i < |day|
      invariant 0 <= i <= |day|
      invariant Macros(p, c, cal) == DayMacros(foods, day[..i])
    {
      p, c, cal := AccumulateSlot(foods, day[i].items, p, c, cal);
      SlotStep(foods, day, i);
      i := i + 1;
    }
    assert day[..i] == day;
    totals := Macros(p, c, cal);
  }

  /** The inner `forEach` of `computeTotals` over one slot's items: an item
      whose id the catalog lacks is skipped, any other adds its macros
      times its quantity. */
  method AccumulateSlot(foods: seq<FoodItem>, items: seq<SavedMealItem>, p0: int, c0: int, cal0: int)
    returns (p: int, c: int, cal: int)
    ensures Macros(p, c, cal) == Plus(Macros(p0, c0, cal0), ItemsMacros(foods, items))
  {
    ghost var before := Macros(p0, c0, cal0);
    p, c, cal := p0, c0, cal0;
    var j := 0;
    assert items[..0] == [];
    PlusZero(before);
    while j < |items|
      invariant 0 <= j <= |items|
      invariant Macros(p, c, cal) == Plus(before, ItemsMacros(foods, items[..j]))
    {
      var it := items[j];
      ghost var acc := Macros(p, c, cal);
      var food := Find(foods, it.id);
      if food.Some? {
        var qty := Quantity(it);
        var dp, dc, dcal := OrZero(food.value.protein) * qty, OrZero(food.value.carbs) * qty, OrZero(food.value.cal) * qty;
        p, c, cal := p + dp, c + dc, cal + dcal;
        assert ItemMacros(foods, it) == Macros(dp, dc, dcal);
      }
      ItemStep(foods, before, items, j);
      j := j + 1;
    }
    assert items[..j] == items;
  }

  /** One more item of a meal, as the inner loop of `computeTotals` adds it. */
  lemma ItemStep(foods: seq<FoodItem>, acc: Macros, items: seq<SavedMealItem>, j: nat)
    requires j < |items|
    ensures Plus(acc, ItemsMacros(foods, items[..j + 1])) == Plus(Plus(acc, ItemsMacros(foods, items[..j])), ItemMacros(foods, items[j]))
  {
    assert items[..j + 1] == items[..j] + [items[j]];
    ItemsMacrosAppend(foods, items[..j], [items[j]]);
    ItemsMacrosSingle(foods, items[j]);
    PlusLaws(acc, ItemsMacros(foods, items[..j]), ItemMacros(foods, items[j]));
  }

  /** One more slot of the day, as the outer loop of `computeTotals` adds it. */
  lemma SlotStep(foods: seq<FoodItem>, day: Day, i: nat)
    requires i < |day|
    ensures DayMacros(foods, day[..i + 1]) == Plus(DayMacros(foods, day[..i]), ItemsMacros(foods, day[i].items))
  {
    assert day[..i + 1] == day[..i] + [day[i]];
    DayMacrosAppend(foods, day[..i], [day[i]]);
    assert [day[i]][1..] == [];
    PlusLaws(ItemsMacros(foods, day[i].items), Zero, Zero);
  }

  /** JavaScript's `Math.round`: the nearest integer, halves toward +∞. */
  function MathRound(x: real): int {
    (x + 0.5).Floor
  }

  /** `Math.round(p * 10) / 10` and `Math.round(cal)` change nothing once
      grams are whole tenths and calories whole kcal. */
  lemma RoundingIsExact(tenths: int, kcal: int)
    ensures MathRound((tenths as real / 10.0) * 10.0) as real / 10.0 == tenths as real / 10.0
    ensures MathRound(kcal as real) == kcal
  {
    assert (tenths as real / 10.0) * 10.0 == tenths as real;
  }

  /** `n` apples (catalog id 5 in `SampleFoods`, by `FindApple`: 0.3 g
      protein, 14 g carbohydrate, 52 kcal) at breakfast make n times those
      amounts; two make 0.6 g, 28 g and 104 kcal. */
  lemma ApplesAtBreakfast(foods: seq<FoodItem>, n: int)
    requires Find(foods, 5) == Some(Food(5, "Maçã", 140, 52, 3, "IG Baixo"))
    ensures DayMacros(foods, [Slot("Café da manhã", [SavedMealItem(5, "Maçã", Some(n))])]) == Macros(3 * n, 140 * n, 52 * n)
  {
    var apple := SavedMealItem(5, "Maçã", Some(n));
    assert ItemMacros(foods, apple) == Macros(3 * n, 140 * n, 52 * n);
    ItemsMacrosSingle(foods, apple);
    var day := [Slot("Café da manhã", [apple])];
    assert day[1..] == [];
    PlusZero(Macros(3 * n, 140 * n, 52 * n));
  }

  /** A calendar day as the device clock reports it: `getFullYear()`,
      `getMonth()` (0 for January) and `getDate()`. */
  datatype CalendarDay = CalendarDay(year: nat, monthIndex: nat, date: nat)

  predicate ValidDay(d: CalendarDay) {
    d.monthIndex < 12 && 1 <= d.date <= 31
  }

  const MealsKeyPrefix := "meals_"

  /** `todayKey()`: `meals_YYYY-MM-DD` with a two-digit month and day. */
  function TodayKey(d: CalendarDay): (key: string)
    ensures |key| >= 12 && key[..6] == MealsKeyPrefix
    ensures ValidDay(d) ==> |key| == 12 + |DecimalString(d.year)|
  {
    var y := DecimalString(d.year);
    var m := PadStart2(DecimalString(d.monthIndex + 1));
    var dd := PadStart2(DecimalString(d.date));
    var key := MealsKeyPrefix + y + "-" + m + "-" + dd;
    assert key[..6] == MealsKeyPrefix;
    key
  }

  lemma {:induction false} ParseLeadingZero(s: string)
    requires forall i :: 0 <= i < |s| ==> IsDigit(s[i])
    ensures ParseDecimal("0" + s) == ParseDecimal(s)
  {
    if s != [] {
      assert ("0" + s)[..|"0" + s| - 1] == "0" + s[..|s| - 1];
      ParseLeadingZero(s[..|s| - 1]);
    } else {
      assert ("0" + s)[..0] == [];
    }
  }

  lemma TwoDigitsRoundTrip(n: nat)
    requires n < 100
    ensures |PadStart2(DecimalString(n))| == 2
    ensures forall i :: 0 <= i < 2 ==> IsDigit(PadStart2(DecimalString(n))[i])
    ensures ParseDecimal(PadStart2(DecimalString(n))) == n
  {
    var s := DecimalString(n);
    DecimalRoundTrip(n);
    if |s| == 1 {
      ParseLeadingZero(s);
    }
  }

  /** Where each part sits in `prefix + y + "-" + m + "-" + dd`. */
  lemma SplitKey(prefix: string, y: string, m: string, dd: string)
    requires |prefix| == 6 && |m| == 2 && |dd| == 2
    ensures var key := prefix + y + "-" + m + "-" + dd;
      && |key| == 12 + |y|
      && key[6..6 + |y|] == y && key[7 + |y|..9 + |y|] == m && key[10 + |y|..] == dd
  {
    var head := prefix + y + "-";
    var mid := head + m + "-";
    var key := mid + dd;
    assert key[|mid|..] == dd;
    assert key[..|mid|] == mid;
    assert mid[|head|..|head| + 2] == m;
    assert head[6..6 + |y|] == y;
  }

  /** Where the year, the month and the day sit in a day's key. */
  lemma KeyParts(d: CalendarDay)
    requires ValidDay(d)
    ensures var n := |DecimalString(d.year)|;
      && |TodayKey(d)| == 12 + n
      && TodayKey(d)[6..6 + n] == DecimalString(d.year)
      && TodayKey(d)[7 + n..9 + n] == PadStart2(DecimalString(d.monthIndex + 1))
      && TodayKey(d)[10 + n..] == PadStart2(DecimalString(d.date))
  {
    var y := DecimalString(d.year);
    var m := PadStart2(DecimalString(d.monthIndex + 1));
    var dd := PadStart2(DecimalString(d.date));
    TwoDigitsRoundTrip(d.monthIndex + 1);
    TwoDigitsRoundTrip(d.date);
    SplitKey(MealsKeyPrefix, y, m, dd);
    assert TodayKey(d) == MealsKeyPrefix + y + "-" + m + "-" + dd;
  }

  /** Different days are stored under different keys, so one day's ledger
      never overwrites another's. */
  lemma TodayKeyInjective(a: CalendarDay, b: CalendarDay)
    requires ValidDay(a) && ValidDay(b)
    requires TodayKey(a) == TodayKey(b)
    ensures a == b
  {
    KeyParts(a);
    KeyParts(b);
    var ya, yb := DecimalString(a.year), DecimalString(b.year);
    assert |ya| == |yb|;
    var ma, mb := PadStart2(DecimalString(a.monthIndex + 1)), PadStart2(DecimalString(b.monthIndex + 1));
    var da, db := PadStart2(DecimalString(a.date)), PadStart2(DecimalString(b.date));
    assert ya == yb && ma == mb && da == db;
    TwoDigitsRoundTrip(a.monthIndex + 1);
    TwoDigitsRoundTrip(b.monthIndex + 1);
    TwoDigitsRoundTrip(a.date);
    TwoDigitsRoundTrip(b.date);
    DecimalRoundTrip(a.year);
    DecimalRoundTrip(b.year);
  }

  /** The device storage as seen by the meal screens: one record per
      day key. */
  class MealStorage {
    var items: map<string, Raw<Day>>

    /** Every record that parses is a proper JavaScript object. */
    ghost predicate Valid()
      reads this
    {
      forall k :: k in items && items[k].Json? ==> DistinctMeals(items[k].value)
    }

    constructor ()
      ensures items == map[] && Valid()
    {
      items := map[];
    }

    /** `loadMealsForToday()`: the stored record, or `{}` when the key is
        missing or its text does not parse. */
    function LoadMealsForToday(today: CalendarDay): (day: Day)
      reads this
      ensures Valid() ==> DistinctMeals(day)
    {
      Read(items, TodayKey(today), [])
    }

    /** `saveMealsForToday(data)` */
    method SaveMealsForToday(today: CalendarDay, data: Day)
      modifies this
      ensures items == old(items)[TodayKey(today) := Json(data)]
      ensures old(Valid()) && DistinctMeals(data) ==> Valid()
      ensures LoadMealsForToday(today) == data
    {
      items := items[TodayKey(today) := Json(data)];
    }

    /** `AsyncStorage.removeItem(key)` */
    method RemoveItem(key: string)
      modifies this
      ensures items == old(items) - {key}
      ensures old(Valid()) ==> Valid()
    {
      items := items - {key};
    }
  }
}
