/**
 * The selection counter of the add-food screen: `selected` maps a food id
 * to how many portions of it are picked. It is a JavaScript object with
 * integer keys, so `Object.values` and `Object.entries` visit it in
 * ascending key order; food ids are catalog ids and hence non-negative.
 */
module Selection {
  import opened Store
  import opened Catalog
  import opened Ledger

  type Counts = map<nat, int>

  /** Every stored count is at least one. */
  predicate Positive(s: Counts) {
    forall id :: id in s ==> s[id] >= 1
  }

  /** `prev[id] ?? 0` */
  function Get(s: Counts, id: nat): int {
    if id in s then s[id] else 0
  }

  /** `inc(id)`: one more portion of `id`. */
  function Inc(s: Counts, id: nat): (r: Counts)
    ensures r.Keys == s.Keys + {id}
    ensures Get(r, id) == Get(s, id) + 1
    ensures forall k :: k in s && k != id ==> r[k] == s[k]
  {
    s[id := Get(s, id) + 1]
  }

  /** `dec(id)`: one portion less, never below zero; a count that reaches
      zero is deleted. */
  function Dec(s: Counts, id: nat): (r: Counts)
    ensures Get(s, id) <= 1 ==> r.Keys == s.Keys - {id}
    ensures Get(s, id) > 1 ==> r.Keys == s.Keys && r[id] == s[id] - 1
    ensures forall k :: k in s && k != id ==> k in r && r[k] == s[k]
  {
    var v := if Get(s, id) - 1 > 0 then Get(s, id) - 1 else 0;
    if v == 0 then s - {id} else s[id := v]
  }

  lemma IncKeepsPositive(s: Counts, id: nat)
    requires Positive(s)
    ensures Positive(Inc(s, id))
  {
  }

  /** `dec` keeps every stored count at least one, whatever the map held. */
  lemma DecKeepsPositive(s: Counts, id: nat)
    requires Positive(s)
    ensures Positive(Dec(s, id))
  {
  }

  /** `dec` undoes `inc`. */
  lemma DecUndoesInc(s: Counts, id: nat)
    requires Positive(s)
    ensures Dec(Inc(s, id), id) == s
  {
    if id in s {
      assert Dec(Inc(s, id), id) == s[id := s[id]];
    }
  }

  /** Below any key there is a smallest one. */
  lemma {:induction false} MinExists(keys: set<nat>, x: nat)
    requires x in keys
    ensures exists m :: m in keys && forall k :: k in keys ==> m <= k
    decreases x
  {
    if !forall k :: k in keys ==> x <= k {
      var y :| y in keys && y < x;
      MinExists(keys, y);
    }
  }

  /** The smallest selected id: the first key JavaScript enumerates. */
  function MinKey(keys: set<nat>): (m: nat)
    requires keys != {}
    ensures m in keys && forall k :: k in keys ==> m <= k
  {
    var x :| x in keys;
    MinExists(keys, x);
    var m :| m in keys && forall k :: k in keys ==> m <= k;
    m
  }

  /** `totalSelected`: `Object.values(selected).reduce((s, n) => s + n, 0)`,
      the counts summed in ascending id order. */
  function Total(s: Counts): int
    decreases s.Keys
  {
    if s == map[] then 0
    else
      var m := MinKey(s.Keys);
      assert (s - {m}).Keys < s.Keys;
      s[m] + Total(s - {m})
  }

  /** The sum does not depend on the order: any one count can be taken out
      first. */
  lemma {:induction false} TotalDelete(s: Counts, id: nat)
    requires id in s
    ensures Total(s - {id}) == Total(s) - s[id]
    decreases s.Keys
  {
    var m := MinKey(s.Keys);
    assert (s - {m}).Keys < s.Keys;
    if id != m {
      var sm, si := s - {m}, s - {id};
      assert si.Keys == s.Keys - {id};
      assert m in si.Keys;
      var m' := MinKey(si.Keys);
      assert m' in s.Keys;
      assert m' <= m && m <= m';
      assert si - {m} == sm - {id};
      TotalDelete(sm, id);
    }
  }

  /** Setting one count moves the total by the difference. */
  lemma TotalUpdate(s: Counts, id: nat, v: int)
    ensures Total(s[id := v]) == Total(s) - Get(s, id) + v
  {
    var t := s[id := v];
    TotalDelete(t, id);
    if id in s {
      TotalDelete(s, id);
      assert t - {id} == s - {id};
    } else {
      assert t - {id} == s;
    }
  }

  /** `inc` raises `totalSelected` by one. */
  lemma TotalInc(s: Counts, id: nat)
    ensures Total(Inc(s, id)) == Total(s) + 1
  {
    TotalUpdate(s, id, Get(s, id) + 1);
  }

  /** On a positive map `dec` lowers `totalSelected` by one when the id is
      selected and leaves it alone otherwise. */
  lemma TotalDec(s: Counts, id: nat)
    requires Positive(s)
    ensures Total(Dec(s, id)) == if id in s then Total(s) - 1 else Total(s)
  {
    if id !in s {
      assert Dec(s, id) == s;
    } else if s[id] == 1 {
      TotalDecLast(s, id);
    } else {
      TotalDecOne(s, id);
    }
  }

  lemma TotalDecLast(s: Counts, id: nat)
    requires id in s && s[id] == 1
    ensures Total(Dec(s, id)) == Total(s) - 1
  {
    assert Dec(s, id) == s - {id};
    TotalDelete(s, id);
  }

  lemma TotalDecOne(s: Counts, id: nat)
    requires id in s && s[id] > 1
    ensures Total(Dec(s, id)) == Total(s) - 1
  {
    assert Dec(s, id) == s[id := s[id] - 1];
    TotalUpdate(s, id, s[id] - 1);
  }

  /** With every count at least one, `totalSelected` is at least the number
      of selected ids, and it is zero exactly when nothing is selected. */
  lemma {:induction false} TotalZeroIffEmpty(s: Counts)
    requires Positive(s)
    ensures Total(s) >= |s|
    ensures Total(s) == 0 <==> s == map[]
    decreases s.Keys
  {
    if s != map[] {
      var m := MinKey(s.Keys);
      assert (s - {m}).Keys < s.Keys;
      TotalZeroIffEmpty(s - {m});
      assert |(s - {m}).Keys| == |s.Keys| - 1;
    }
  }

  /** The items `handleAdd` builds: `Object.entries(selected)` in ascending
      id order, one per selected id, as `ItemFor` describes it. */
  function SelectionItems(foods: seq<FoodItem>, s: Counts): (items: seq<SavedMealItem>)
    ensures |items| == |s|
    ensures forall i :: 0 <= i < |items| ==> items[i].id in s && items[i] == ItemFor(foods, s, items[i].id)
    ensures forall i, j :: 0 <= i < j < |items| ==> items[i].id < items[j].id
    decreases s.Keys
  {
    if s == map[] then []
    else
      var m := MinKey(s.Keys);
      var rest := s - {m};
      assert rest.Keys < s.Keys;
      var tail := SelectionItems(foods, rest);
      assert |rest.Keys| == |s.Keys| - 1;
      var items := [ItemFor(foods, s, m)] + tail;
      assert forall i :: 1 <= i < |items| ==> items[i] == tail[i - 1];
      assert forall i :: 0 <= i < |tail| ==> tail[i].id in rest && m < tail[i].id;
      forall i | 0 <= i < |tail| ensures tail[i] == ItemFor(foods, s, tail[i].id) {
        ItemForAgree(foods, rest, s, tail[i].id);
      }
      items
  }

  /** Every selected id gets its item. */
  lemma {:induction false} SelectionItemsCover(foods: seq<FoodItem>, s: Counts, id: nat)
    requires id in s
    ensures exists i :: 0 <= i < |SelectionItems(foods, s)| && SelectionItems(foods, s)[i].id == id
    decreases s.Keys
  {
    var m := MinKey(s.Keys);
    var items := SelectionItems(foods, s);
    if id == m {
      assert items[0].id == m;
    } else {
      var rest := s - {m};
      assert rest.Keys < s.Keys;
      SelectionItemsCover(foods, rest, id);
      var tail := SelectionItems(foods, rest);
      var i :| 0 <= i < |tail| && tail[i].id == id;
      assert items[i + 1] == tail[i];
    }
  }

  lemma ItemForAgree(foods: seq<FoodItem>, s: Counts, t: Counts, id: nat)
    requires id in s && id in t && s[id] == t[id]
    ensures ItemFor(foods, s, id) == ItemFor(foods, t, id)
  {
  }

  /** One item of `handleAdd`: `{ id, name: f ? f.name : 'Item', qty }`. */
  function ItemFor(foods: seq<FoodItem>, s: Counts, id: nat): (it: SavedMealItem)
    requires id in s
    ensures it.id == id && it.qty == Some(s[id])
    ensures Find(foods, id).Some? ==> it.name == Find(foods, id).value.name
    ensures Find(foods, id).None? ==> it.name == "Item"
  {
    var name := match Find(foods, id) case Some(f) => f.name case None => "Item";
    SavedMealItem(id, name, Some(s[id]))
  }
}
