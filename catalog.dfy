/**
 * The food catalog (`SAMPLE_FOODS`) and the glycemic-index colours.
 *
 * Every macro in the catalog has at most one decimal, so grams are kept
 * as integer tenths of a gram; calories are whole kilocalories.
 */
module Catalog {
  import opened Store

  /** One catalog row. `carbs` and `protein` are in tenths of a gram,
      `cal` in kcal; each may be absent, as the source's type allows. */
  datatype FoodItem = FoodItem(
    id: int,
    name: string,
    carbs: Option<int>,
    protein: Option<int>,
    cal: Option<int>,
    glycemic: Option<string>)

  function Food(id: int, name: string, carbs: int, cal: int, protein: int, glycemic: string): FoodItem {
    FoodItem(id, name, Some(carbs), Some(protein), Some(cal), Some(glycemic))
  }

  const SampleFoods: seq<FoodItem> := [
    Food(1, "Aveia integral", 200, 117, 40, "IG Baixo"),
    Food(2, "Peito de frango grelhado", 0, 165, 310, "IG Muito baixo"),
    Food(3, "Brócolis cozido", 70, 34, 30, "IG Muito baixo"),
    Food(4, "Arroz integral cozido", 230, 111, 26, "IG Médio"),
    Food(5, "Maçã", 140, 52, 3, "IG Baixo"),
    Food(6, "Banana", 270, 105, 13, "IG Médio"),
    Food(7, "Feijão carioca cozido", 140, 127, 87, "IG Muito baixo"),
    Food(8, "Ovo cozido", 6, 68, 60, "IG Muito baixo"),
    Food(9, "Pão integral", 230, 130, 50, "IG Médio"),
    Food(10, "Salmão grelhado", 0, 208, 200, "IG Muito baixo"),
    Food(11, "Iogurte natural desnatado", 170, 100, 100, "IG Baixo"),
    Food(12, "Queijo Minas frescal", 10, 90, 60, "IG Muito baixo"),
    Food(13, "Brócolis cru", 70, 31, 25, "IG Muito baixo"),
    Food(14, "Batata inglesa cozida", 200, 87, 20, "IG Alto"),
    Food(15, "Arroz branco cozido", 280, 130, 24, "IG Alto"),
    Food(16, "Feijão preto cozido", 140, 132, 90, "IG Muito baixo"),
    Food(17, "Leite integral", 100, 122, 66, "IG Baixo"),
    Food(18, "Leite desnatado", 100, 70, 70, "IG Baixo"),
    Food(19, "Leite achocolatado", 260, 150, 60, "IG Médio"),
    Food(20, "Suco de laranja", 200, 88, 16, "IG Médio"),
    Food(21, "Suco de maçã", 240, 96, 2, "IG Médio"),
    Food(22, "Iogurte de frutas", 180, 140, 50, "IG Baixo")
  ]

  /** `foods.find(f => f.id === id)`: the first row carrying `id`, if any. */
  function Find(foods: seq<FoodItem>, id: int): (r: Option<FoodItem>)
    ensures r.None? ==> forall i :: 0 <= i < |foods| ==> foods[i].id != id
    ensures r.Some? ==> r.value in foods && r.value.id == id
  {
    if foods == [] then None
    else if foods[0].id == id then Some(foods[0])
    else
      var r := Find(foods[1..], id);
      assert forall i :: 1 <= i < |foods| ==> foods[i] == foods[1..][i - 1];
      r
  }

  /** `find` answers the FIRST row carrying `id`: the row at `k` when no
      earlier row carries it. */
  lemma {:induction false} FindFirst(foods: seq<FoodItem>, id: int, k: nat)
    requires k < |foods| && foods[k].id == id
    requires forall i :: 0 <= i < k ==> foods[i].id != id
    ensures Find(foods, id) == Some(foods[k])
  {
    if k > 0 {
      assert foods[0].id != id;
      FindFirst(foods[1..], id, k - 1);
    }
  }

  /** Rows of `SAMPLE_FOODS` are numbered 1 to 22 in order. */
  lemma SampleIds()
    ensures |SampleFoods| == 22
    ensures forall i :: 0 <= i < |SampleFoods| ==> SampleFoods[i].id == i + 1
  {
  }

  /** A food id resolves in the catalog exactly when it lies in 1..22, and
      then to row `id - 1`. */
  lemma FindSample(id: int)
    ensures Find(SampleFoods, id).Some? <==> 1 <= id <= 22
    ensures 1 <= id <= 22 ==> Find(SampleFoods, id) == Some(SampleFoods[id - 1])
  {
    SampleIds();
    if 1 <= id <= 22 {
      var r := Find(SampleFoods, id);
      assert SampleFoods[id - 1].id == id;
      assert r.Some?;
      var i :| 0 <= i < |SampleFoods| && SampleFoods[i] == r.value;
      assert i == id - 1;
    }
  }

  /** Catalog id 5 is the apple: 0.3 g protein, 14 g carbohydrate and
      52 kcal per portion. */
  lemma FindApple()
    ensures Find(SampleFoods, 5) == Some(Food(5, "Maçã", 140, 52, 3, "IG Baixo"))
  {
    var apple := Food(5, "Maçã", 140, 52, 3, "IG Baixo");
    assert SampleFoods[4] == apple;
    FindSample(5);
  }

  const GlycemicColors: map<string, string> := map[
    "IG Muito baixo" := "#2ecc71",
    "IG Baixo" := "#3498db",
    "IG Médio" := "#f1c40f",
    "IG Alto" := "#e74c3c"
  ]

  const NeutralColor := "#95a5a6"

  /** `getGlycemicColor(level)`: the badge colour of a level, grey for an
      absent or empty level and for one without a colour. */
  function GlycemicColor(level: Option<string>): (r: string)
    ensures r in GlycemicColors.Values || r == NeutralColor
    ensures r != NeutralColor <==> level.Some? && level.value in GlycemicColors
    ensures level.Some? && level.value in GlycemicColors ==> r == GlycemicColors[level.value]
  {
    if level.None? || level.value == "" then NeutralColor
    else if level.value in GlycemicColors then GlycemicColors[level.value]
    else NeutralColor
  }

  /** `getGlycemicTextColor(level)`: dark text for the medium level, white
      otherwise. */
  function GlycemicTextColor(level: Option<string>): (r: string)
    ensures r == "#111" <==> level == Some("IG Médio")
    ensures r != "#111" ==> r == "#fff"
  {
    if level == Some("IG Médio") then "#111" else "#fff"
  }

  /** The badge text is dark exactly on the yellow badge, the one light
      background of the four. */
  lemma DarkTextOnYellowOnly(level: Option<string>)
    ensures GlycemicTextColor(level) == "#111" <==> GlycemicColor(level) == "#f1c40f"
  {
  }

  /** Every catalog food carries a level that has its own colour, so no
      food in the catalog shows the grey fallback badge. */
  lemma SampleLevelsAreColoured()
    ensures forall i :: 0 <= i < |SampleFoods| ==> GlycemicColor(SampleFoods[i].glycemic) != NeutralColor
  {
  }
}
