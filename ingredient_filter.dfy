/**
 * The ingredient search of `src/components/IngredientFilter.jsx`: the index of all
 * ingredients, the entities one of whose Lv.60 patterns holds the selected
 * ingredient, ordered by their best individual value for it, and the per-card
 * best pattern. The component's state is a class whose methods are its handlers.
 */
module IngredientFilter {
  import opened Wrappers
  import opened Strings
  import opened Seqs
  import opened PokemonData
  import WikiTable
  import PokemonCard

  /** The patterns available at level 60, in the order the component consults them */
  const Lv60Patterns: seq<string> := ["AAA", "AAB", "AAC", "ABA", "ABB", "ABC"]

  // ---------------------------------------------------------------------------
  // The filter of handleIngredientClick

  /** Some Lv.60 pattern of `e` is present and lists `ingredient` */
  predicate HasLv60Ingredient(e: Entity, ingredient: string) {
    exists k :: 0 <= k < |Lv60Patterns| && Lv60Patterns[k] in e.ingredientPatterns &&
      ingredient in e.ingredientPatterns[Lv60Patterns[k]].ingredients
  }

  /** An entity with only AA and AB patterns never qualifies, whatever those list. */
  lemma Lv1And30PatternsNeverQualify(e: Entity, ingredient: string)
    requires forall code :: code in e.ingredientPatterns ==> code == "AA" || code == "AB"
    ensures !HasLv60Ingredient(e, ingredient)
  {
  }

  /** A qualifying entity keeps qualifying whatever AA and AB patterns are added or removed. */
  lemma QualifiesIndependentOfLowPatterns(e: Entity, ingredient: string, aa: PatternRecord)
    ensures HasLv60Ingredient(e.(ingredientPatterns := e.ingredientPatterns["AA" := aa]), ingredient) <==>
      HasLv60Ingredient(e, ingredient)
    ensures HasLv60Ingredient(e.(ingredientPatterns := e.ingredientPatterns - {"AB"}), ingredient) <==>
      HasLv60Ingredient(e, ingredient)
  {
    var e1 := e.(ingredientPatterns := e.ingredientPatterns["AA" := aa]);
    var e2 := e.(ingredientPatterns := e.ingredientPatterns - {"AB"});
    assert forall k :: 0 <= k < |Lv60Patterns| ==> Lv60Patterns[k] != "AA" && Lv60Patterns[k] != "AB";
    if HasLv60Ingredient(e, ingredient) {
      var k :| 0 <= k < |Lv60Patterns| && Lv60Patterns[k] in e.ingredientPatterns &&
        ingredient in e.ingredientPatterns[Lv60Patterns[k]].ingredients;
      assert Lv60Patterns[k] in e1.ingredientPatterns && e1.ingredientPatterns[Lv60Patterns[k]] == e.ingredientPatterns[Lv60Patterns[k]];
      assert Lv60Patterns[k] in e2.ingredientPatterns && e2.ingredientPatterns[Lv60Patterns[k]] == e.ingredientPatterns[Lv60Patterns[k]];
    }
  }

  // ---------------------------------------------------------------------------
  // getMaxValue

  /** `pattern?.individualValues?.[ingredient] || 0` */
  function PatternValue(e: Entity, ingredient: string, patternName: string): real {
    if patternName in e.ingredientPatterns && ingredient in e.ingredientPatterns[patternName].individualValues
    then e.ingredientPatterns[patternName].individualValues[ingredient]
    else 0.0
  }

  /** The value of each Lv.60 pattern, in `Lv60Patterns` order */
  function Lv60Values(e: Entity, ingredient: string): (r: seq<real>)
    ensures |r| == |Lv60Patterns|
    ensures forall k :: 0 <= k < |r| ==> r[k] == PatternValue(e, ingredient, Lv60Patterns[k])
  {
    seq(|Lv60Patterns|, k requires 0 <= k < |Lv60Patterns| => PatternValue(e, ingredient, Lv60Patterns[k]))
  }

  function IsPositiveValue(v: real): bool {
    v > 0.0
  }

  /** `getMaxValue`: `Math.max(...positiveValues, 0)` */
  function MaxValue(e: Entity, ingredient: string): (m: real)
    ensures m >= 0.0
    ensures forall k :: 0 <= k < |Lv60Patterns| ==> PatternValue(e, ingredient, Lv60Patterns[k]) <= m
    ensures m == 0.0 || exists k :: 0 <= k < |Lv60Patterns| && PatternValue(e, ingredient, Lv60Patterns[k]) == m
  {
    var values := Lv60Values(e, ingredient);
    var positives := Filter(values, IsPositiveValue);
    var m := Max(positives + [0.0]);
    FilterMembers(values, IsPositiveValue);
    assert forall k :: 0 <= k < |values| && values[k] > 0.0 ==> values[k] in positives + [0.0];
    assert (positives + [0.0])[|positives|] == 0.0;
    m
  }

  // ---------------------------------------------------------------------------
  // The sort of handleIngredientClick

  function Qualifies(ingredient: string): Entity -> bool {
    e => HasLv60Ingredient(e, ingredient)
  }

  function BestValue(ingredient: string): Entity -> real {
    e => MaxValue(e, ingredient)
  }

  /** The entities shown for `ingredient`: the qualifying ones, best value first, ties in data order */
  function SearchResults(data: seq<Entity>, ingredient: string): seq<Entity> {
    SortDesc(Filter(data, Qualifies(ingredient)), BestValue(ingredient))
  }

  /** The results are exactly the qualifying entities, each as often as it occurs in `data`. */
  lemma SearchResultsPermutation(data: seq<Entity>, ingredient: string)
    ensures forall e :: (multiset(SearchResults(data, ingredient))[e] ==
      if HasLv60Ingredient(e, ingredient) then multiset(data)[e] else 0)
  {
    FilterMultiset(data, Qualifies(ingredient));
    SortDescPermutation(Filter(data, Qualifies(ingredient)), BestValue(ingredient));
  }

  /** An entity is shown exactly when it is in `data` and one of its Lv.60 patterns lists the ingredient. */
  lemma SearchResultsMembers(data: seq<Entity>, ingredient: string)
    ensures forall e :: e in SearchResults(data, ingredient) <==> e in data && HasLv60Ingredient(e, ingredient)
  {
    var r := SearchResults(data, ingredient);
    SearchResultsPermutation(data, ingredient);
    forall e ensures e in r <==> e in data && HasLv60Ingredient(e, ingredient) {
      assert e in r <==> multiset(r)[e] > 0;
      assert e in data <==> multiset(data)[e] > 0;
    }
  }

  /** The results are ordered by non-increasing best value. */
  lemma SearchResultsSorted(data: seq<Entity>, ingredient: string)
    ensures forall i, j :: 0 <= i < j < |SearchResults(data, ingredient)| ==>
      MaxValue(SearchResults(data, ingredient)[i], ingredient) >= MaxValue(SearchResults(data, ingredient)[j], ingredient)
  {
    SortDescSorted(Filter(data, Qualifies(ingredient)), BestValue(ingredient));
  }

  /** Entities with the same best value appear in the order they have in `data`. */
  lemma SearchResultsStable(data: seq<Entity>, ingredient: string, v: real)
    ensures Filter(SearchResults(data, ingredient), KeyIs(BestValue(ingredient), v)) ==
      Filter(Filter(data, Qualifies(ingredient)), KeyIs(BestValue(ingredient), v))
  {
    SortDescStable(Filter(data, Qualifies(ingredient)), BestValue(ingredient), v);
  }

  // ---------------------------------------------------------------------------
  // The maxItem reduction of a result card

  datatype ValueItem = ValueItem(patternName: string, value: real)

  /** `{ patternName, value }` for each Lv.60 pattern, in `Lv60Patterns` order */
  function Lv60Items(e: Entity, ingredient: string): (r: seq<ValueItem>)
    ensures |r| == |Lv60Patterns|
    ensures forall k :: 0 <= k < |r| ==> r[k] == ValueItem(Lv60Patterns[k], PatternValue(e, ingredient, Lv60Patterns[k]))
  {
    seq(|Lv60Patterns|, k requires 0 <= k < |Lv60Patterns| =>
      ValueItem(Lv60Patterns[k], PatternValue(e, ingredient, Lv60Patterns[k])))
  }

  function ItemIsPositive(item: ValueItem): bool {
    item.value > 0.0
  }

  /** `items.reduce((max, current) => current.value > max.value ? current : max, acc)` */
  function ReduceMax(items: seq<ValueItem>, acc: ValueItem): ValueItem {
    if items == [] then acc
    else ReduceMax(items[1..], if items[0].value > acc.value then items[0] else acc)
  }

  /**
   * The reduction returns the start value or an item strictly above it; no item is above
   * the result, and a returned item is the FIRST item with the result's value.
   */
  lemma {:induction false} ReduceMaxSpec(items: seq<ValueItem>, acc: ValueItem)
    ensures ReduceMax(items, acc).value >= acc.value
    ensures forall k :: 0 <= k < |items| ==> items[k].value <= ReduceMax(items, acc).value
    ensures ReduceMax(items, acc) == acc ||
      exists k :: 0 <= k < |items| && items[k] == ReduceMax(items, acc) && items[k].value > acc.value &&
        forall j :: 0 <= j < k ==> items[j].value < items[k].value
  {
    if items != [] {
      var acc' := if items[0].value > acc.value then items[0] else acc;
      var r := ReduceMax(items, acc);
      ReduceMaxSpec(items[1..], acc');
      assert r == ReduceMax(items[1..], acc');
      forall k | 1 <= k < |items| ensures items[k].value <= r.value {
        assert items[k] == items[1..][k - 1];
      }
      if r != acc' {
        var k :| 0 <= k < |items[1..]| && items[1..][k] == r && items[1..][k].value > acc'.value &&
          forall j :: 0 <= j < k ==> items[1..][j].value < items[1..][k].value;
        assert items[k + 1] == r;
        forall j | 0 <= j < k + 1 ensures items[j].value < items[k + 1].value {
          if j > 0 { assert items[j] == items[1..][j - 1]; }
        }
      } else if r != acc {
        assert r == items[0];
      }
    }
  }

  /** Items that are not positive never win against a start value that is not negative. */
  lemma {:induction false} ReduceMaxSkipsNonPositive(items: seq<ValueItem>, acc: ValueItem)
    requires acc.value >= 0.0
    ensures ReduceMax(Filter(items, ItemIsPositive), acc) == ReduceMax(items, acc)
  {
    if items != [] {
      var acc' := if items[0].value > acc.value then items[0] else acc;
      ReduceMaxSkipsNonPositive(items[1..], acc');
      if !ItemIsPositive(items[0]) {
        assert Filter(items, ItemIsPositive) == Filter(items[1..], ItemIsPositive);
      } else {
        var f := Filter(items, ItemIsPositive);
        assert f == [items[0]] + Filter(items[1..], ItemIsPositive);
        assert f[1..] == Filter(items[1..], ItemIsPositive);
      }
    }
  }

  /** The start value of the reduction */
  const NoItem := ValueItem("", 0.0)

  /**
   * The card's best pattern for `ingredient`: its value is the best value, its name is ''
   * exactly when no Lv.60 pattern has a positive value, and on a tie the pattern that
   * comes first in Lv.60 order wins.
   */
  function MaxItem(e: Entity, ingredient: string): (r: ValueItem)
    ensures r.value == MaxValue(e, ingredient)
    ensures r.patternName == "" <==> r.value == 0.0
    ensures r.patternName != "" ==> exists k :: (0 <= k < |Lv60Patterns| && r.patternName == Lv60Patterns[k] &&
      PatternValue(e, ingredient, Lv60Patterns[k]) == r.value &&
      forall j :: 0 <= j < k ==> PatternValue(e, ingredient, Lv60Patterns[j]) < r.value)
  {
    MaxItemValue(e, ingredient);
    MaxItemWinner(e, ingredient);
    ReduceMax(Filter(Lv60Items(e, ingredient), ItemIsPositive), NoItem)
  }

  /** The reduction over the positive items finds the best value. */
  lemma MaxItemValue(e: Entity, ingredient: string)
    ensures ReduceMax(Filter(Lv60Items(e, ingredient), ItemIsPositive), NoItem).value == MaxValue(e, ingredient)
  {
    var items := Lv60Items(e, ingredient);
    var m := MaxValue(e, ingredient);
    forall k | 0 <= k < |items| ensures items[k].value <= m {
      assert items[k].value == PatternValue(e, ingredient, Lv60Patterns[k]);
    }
    if m != 0.0 {
      var k :| 0 <= k < |Lv60Patterns| && PatternValue(e, ingredient, Lv60Patterns[k]) == m;
      assert items[k].value == m;
    }
    ReduceMaxReaches(items, m);
  }

  /**
   * Over items bounded by a value `m` that is not negative and is 0 or some item's value,
   * the reduction over the positive items from `NoItem` reaches `m`.
   */
  lemma ReduceMaxReaches(items: seq<ValueItem>, m: real)
    requires m >= 0.0
    requires forall k :: 0 <= k < |items| ==> items[k].value <= m
    requires m == 0.0 || exists k :: 0 <= k < |items| && items[k].value == m
    ensures ReduceMax(Filter(items, ItemIsPositive), NoItem).value == m
  {
    var r := ReduceMax(items, NoItem);
    ReduceMaxSkipsNonPositive(items, NoItem);
    ReduceMaxSpec(items, NoItem);
    if r != NoItem {
      var k :| 0 <= k < |items| && items[k] == r;
      assert r.value <= m;
    }
    if m != 0.0 {
      var k :| 0 <= k < |items| && items[k].value == m;
      assert m <= r.value;
    }
  }

  /**
   * The reduction over the positive items returns no pattern exactly when its value is 0;
   * otherwise it returns the first Lv.60 pattern with its value.
   */
  lemma MaxItemWinner(e: Entity, ingredient: string)
    ensures var r := ReduceMax(Filter(Lv60Items(e, ingredient), ItemIsPositive), NoItem);
      && (r.patternName == "" <==> r.value == 0.0)
      && (r.patternName != "" ==> exists k :: (0 <= k < |Lv60Patterns| && r.patternName == Lv60Patterns[k] &&
            PatternValue(e, ingredient, Lv60Patterns[k]) == r.value &&
            forall j :: 0 <= j < k ==> PatternValue(e, ingredient, Lv60Patterns[j]) < r.value))
  {
    var items := Lv60Items(e, ingredient);
    forall k | 0 <= k < |items| ensures items[k].patternName != "" {
      assert items[k].patternName == Lv60Patterns[k];
    }
    ReduceMaxWinner(items);
    var r := ReduceMax(Filter(items, ItemIsPositive), NoItem);
    if r.patternName != "" {
      var k :| 0 <= k < |items| && items[k] == r && forall j :: 0 <= j < k ==> items[j].value < r.value;
      assert r.patternName == Lv60Patterns[k] && r.value == PatternValue(e, ingredient, Lv60Patterns[k]);
      forall j | 0 <= j < k ensures PatternValue(e, ingredient, Lv60Patterns[j]) < r.value {
        assert items[j].value == PatternValue(e, ingredient, Lv60Patterns[j]);
      }
    }
  }

  /**
   * Over named items, the reduction over the positive items from `NoItem` returns no name
   * exactly when its value is 0, and otherwise the first item with the largest value.
   */
  lemma ReduceMaxWinner(items: seq<ValueItem>)
    requires forall k :: 0 <= k < |items| ==> items[k].patternName != ""
    ensures var r := ReduceMax(Filter(items, ItemIsPositive), NoItem);
      && (r.patternName == "" <==> r.value == 0.0)
      && (r.patternName != "" ==> exists k :: (0 <= k < |items| && items[k] == r &&
            forall j :: 0 <= j < k ==> items[j].value < r.value))
  {
    ReduceMaxSkipsNonPositive(items, NoItem);
    ReduceMaxSpec(items, NoItem);
  }

  // ---------------------------------------------------------------------------
  // What the search shows for the decoder's output

  /** A pattern without individual values contributes 0. */
  lemma NoIndividualValuesNoBest(e: Entity, ingredient: string)
    requires forall code :: code in e.ingredientPatterns ==> e.ingredientPatterns[code].individualValues == map[]
    ensures MaxValue(e, ingredient) == 0.0
    ensures MaxItem(e, ingredient).patternName == ""
  {
  }

  /**
   * The decoder stores `values` and never `individualValues`, so every entity it emits
   * has best value 0 and no best pattern for every ingredient.
   */
  lemma DecodedEntitiesShowNoValue(rows: seq<WikiTable.Row>, parse: WikiTable.NumberParser, ingredient: string)
    ensures forall k :: 0 <= k < |WikiTable.DecodeRows(rows, parse)| ==>
      MaxValue(WikiTable.DecodeRows(rows, parse)[k], ingredient) == 0.0 &&
      MaxItem(WikiTable.DecodeRows(rows, parse)[k], ingredient).patternName == ""
  {
    var decoded := WikiTable.DecodeRows(rows, parse);
    WikiTable.DecodeRowsWellFormed(rows, parse);
    forall k | 0 <= k < |decoded|
      ensures MaxValue(decoded[k], ingredient) == 0.0 && MaxItem(decoded[k], ingredient).patternName == ""
    {
      NoIndividualValuesNoBest(decoded[k], ingredient);
    }
  }

  /** The sample data has no individual values either. */
  lemma SampleEntitiesShowNoValue(ingredient: string)
    ensures forall k :: 0 <= k < |WikiTable.SampleData()| ==>
      MaxValue(WikiTable.SampleData()[k], ingredient) == 0.0
  {
    var sample := WikiTable.SampleData();
    forall k | 0 <= k < |sample| ensures MaxValue(sample[k], ingredient) == 0.0 {
      WikiTable.SampleDataNoIndividualValues(k);
      NoIndividualValuesNoBest(sample[k], ingredient);
    }
  }

  // ---------------------------------------------------------------------------
  // A result card

  /** What a result card shows: the slot label of the selection, the best pattern and the slots */
  datatype Card = Card(slotLabel: string, best: ValueItem, slots: PokemonCard.IngredientSlots)

  /** The card rendered for `e` while `selected` is the selected ingredient */
  function ResultCard(e: Entity, selected: string): (card: Card)
    ensures card.best.value == MaxValue(e, selected)
    ensures card.slots.c.Some? ==> "ABC" in e.ingredientPatterns
    ensures card.slotLabel == "A" <==> card.slots.a == Some(selected)
    ensures card.slotLabel == "" <==> card.slots.a != Some(selected) && card.slots.b != Some(selected) && card.slots.c != Some(selected)
  {
    var slots := PokemonCard.IngredientTypes(e.ingredientPatterns);
    PokemonCard.SlotC(e.ingredientPatterns);
    Card(PokemonCard.IngredientType(slots, selected), MaxItem(e, selected), slots)
  }

  // ---------------------------------------------------------------------------
  // The component state

  class IngredientFilterState {
    var pokemonData: seq<Entity>
    var ingredients: seq<string>
    var selectedIngredient: Option<string>
    var filteredPokemon: seq<Entity>
    var loading: bool

    /** The panel a selection shows: the results of the selected ingredient */
    predicate ShowsSelection()
      reads this
    {
      selectedIngredient.Some? ==> filteredPokemon == SearchResults(pokemonData, selectedIngredient.value)
    }

    /** The initial state of the hooks */
    constructor ()
      ensures pokemonData == [] && ingredients == [] && filteredPokemon == []
      ensures selectedIngredient == None && loading
    {
      pokemonData := [];
      ingredients := [];
      selectedIngredient := None;
      filteredPokemon := [];
      loading := true;
    }

    /** `extractIngredients`: the sorted index of every ingredient of every pattern */
    method ExtractIngredients(data: seq<Entity>)
      modifies this
      ensures StrictlySorted(ingredients)
      ensures forall x :: x in ingredients <==> OccursAsIngredient(data, x)
      ensures pokemonData == old(pokemonData) && selectedIngredient == old(selectedIngredient)
      ensures filteredPokemon == old(filteredPokemon) && loading == old(loading)
    {
      var sortedIngredients := WikiTable.ExtractUniqueIngredients(data);
      ingredients := sortedIngredients;
    }

    /** The fetched data arrives: store it, index it, stop loading */
    method Load(data: seq<Entity>)
      modifies this
      ensures pokemonData == data && !loading
      ensures StrictlySorted(ingredients)
      ensures forall x :: x in ingredients <==> OccursAsIngredient(data, x)
      ensures selectedIngredient == old(selectedIngredient) && filteredPokemon == old(filteredPokemon)
    {
      pokemonData := data;
      ExtractIngredients(data);
      loading := false;
    }

    /** The fetch fails: only stop loading */
    method LoadFailed()
      modifies this
      ensures !loading
      ensures pokemonData == old(pokemonData) && ingredients == old(ingredients)
      ensures selectedIngredient == old(selectedIngredient) && filteredPokemon == old(filteredPokemon)
    {
      loading := false;
    }

    /** `handleIngredientClick`: select `ingredient` and show its results */
    method HandleIngredientClick(ingredient: string)
      modifies this
      ensures selectedIngredient == Some(ingredient)
      ensures filteredPokemon == SearchResults(pokemonData, ingredient)
      ensures ShowsSelection()
      ensures pokemonData == old(pokemonData) && ingredients == old(ingredients) && loading == old(loading)
    {
      selectedIngredient := Some(ingredient);
      var filtered := Filter(pokemonData, Qualifies(ingredient));
      var sortedFiltered := SortDesc(filtered, BestValue(ingredient));
      filteredPokemon := sortedFiltered;
    }

    /** `clearFilter`: no selection and no results */
    method ClearFilter()
      modifies this
      ensures selectedIngredient == None && filteredPokemon == []
      ensures ShowsSelection()
      ensures pokemonData == old(pokemonData) && ingredients == old(ingredients) && loading == old(loading)
    {
      selectedIngredient := None;
      filteredPokemon := [];
    }
  }
}
