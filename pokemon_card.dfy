/**
 * The A/B/C ingredient slots of a card (`src/components/PokemonCard.jsx`; the card
 * rendered by `src/components/IngredientFilter.jsx` computes them the same way) and
 * the label naming the slot of the selected ingredient.
 *
 * A slot value is `Option<string>`: `None` stands for both `null` (never assigned) and
 * `undefined` (an index past the end of an ingredient list). The selection compared
 * against the slots is a string, so the two never need to be told apart.
 */
module PokemonCard {
  import opened Wrappers
  import opened PokemonData

  datatype IngredientSlots = IngredientSlots(a: Option<string>, b: Option<string>, c: Option<string>)

  /** `s[i]`, `undefined` past the end */
  function At(s: seq<string>, i: nat): (r: Option<string>)
    ensures r.Some? <==> i < |s|
    ensures r.Some? ==> r.value == s[i]
  {
    if i < |s| then Some(s[i]) else None
  }

  /** JavaScript truthiness of a slot value: present and not the empty string */
  predicate Truthy(x: Option<string>) {
    x.Some? && x.value != ""
  }

  /** `x || y` */
  function Or(x: Option<string>, y: Option<string>): Option<string> {
    if Truthy(x) then x else y
  }

  /** `patterns[code].ingredients[i]` when pattern `code` is present, otherwise nothing */
  function Ingredient(patterns: map<string, PatternRecord>, code: string, i: nat): Option<string> {
    if code in patterns then At(patterns[code].ingredients, i) else None
  }

  /** The `ingredientTypes` memo: straight-line assignments to A, B and C */
  function IngredientTypes(patterns: map<string, PatternRecord>): IngredientSlots {
    var a0 := Ingredient(patterns, "AAA", 0);
    var a1 :=
      if "AB" in patterns then Or(a0, Ingredient(patterns, "AB", 0))
      else if "AAB" in patterns then Or(a0, Ingredient(patterns, "AAB", 0))
      else a0;
    var b1 :=
      if "AB" in patterns then Ingredient(patterns, "AB", 1)
      else if "AAB" in patterns then Ingredient(patterns, "AAB", 2)
      else None;
    if "ABC" in patterns then
      IngredientSlots(Or(a1, Ingredient(patterns, "ABC", 0)), Or(b1, Ingredient(patterns, "ABC", 1)), Ingredient(patterns, "ABC", 2))
    else
      IngredientSlots(a1, b1, None)
  }

  // ---------------------------------------------------------------------------
  // A reference reading of the `||` chains

  /** The first truthy candidate; the last candidate when none is truthy; nothing when there are none */
  function FirstTruthy(cands: seq<Option<string>>): (r: Option<string>)
    ensures Truthy(r) ==> exists k :: 0 <= k < |cands| && cands[k] == r && forall j :: 0 <= j < k ==> !Truthy(cands[j])
    ensures (exists k :: 0 <= k < |cands| && Truthy(cands[k])) ==> Truthy(r)
    ensures (forall k :: 0 <= k < |cands| ==> !Truthy(cands[k])) ==> r == if cands == [] then None else cands[|cands| - 1]
  {
    if cands == [] then None
    else if |cands| == 1 then cands[0]
    else
      var rest := FirstTruthy(cands[1..]);
      assert forall k :: 1 <= k < |cands| ==> cands[k] == cands[1..][k - 1];
      Or(cands[0], rest)
  }

  /** The candidates for A, in the order the component consults them */
  function ACandidates(patterns: map<string, PatternRecord>): seq<Option<string>> {
    (if "AAA" in patterns then [Ingredient(patterns, "AAA", 0)] else []) +
    (if "AB" in patterns then [Ingredient(patterns, "AB", 0)]
     else if "AAB" in patterns then [Ingredient(patterns, "AAB", 0)] else []) +
    (if "ABC" in patterns then [Ingredient(patterns, "ABC", 0)] else [])
  }

  /** The candidates for B, in the order the component consults them */
  function BCandidates(patterns: map<string, PatternRecord>): seq<Option<string>> {
    (if "AB" in patterns then [Ingredient(patterns, "AB", 1)]
     else if "AAB" in patterns then [Ingredient(patterns, "AAB", 2)] else []) +
    (if "ABC" in patterns then [Ingredient(patterns, "ABC", 1)] else [])
  }

  lemma OrAssociative(x: Option<string>, y: Option<string>, z: Option<string>)
    ensures Or(Or(x, y), z) == Or(x, Or(y, z))
  {
  }

  lemma FirstTruthyPair(x: Option<string>, y: Option<string>)
    ensures FirstTruthy([x, y]) == Or(x, y)
  {
    assert [x, y][1..] == [y];
  }

  lemma FirstTruthyTriple(x: Option<string>, y: Option<string>, z: Option<string>)
    ensures FirstTruthy([x, y, z]) == Or(x, Or(y, z))
  {
    assert [x, y, z][1..] == [y, z];
    FirstTruthyPair(y, z);
  }

  /**
   * A is the first truthy one of AAA[0], then AB[0] (or AAB[0] when AB is absent),
   * then ABC[0], counting only the patterns that are present.
   */
  lemma SlotA(patterns: map<string, PatternRecord>)
    ensures IngredientTypes(patterns).a == FirstTruthy(ACandidates(patterns))
  {
    var x := Ingredient(patterns, "AAA", 0);
    var y := if "AB" in patterns then Ingredient(patterns, "AB", 0) else Ingredient(patterns, "AAB", 0);
    var z := Ingredient(patterns, "ABC", 0);
    var hasX, hasY, hasZ := "AAA" in patterns, "AB" in patterns || "AAB" in patterns, "ABC" in patterns;
    if hasX && hasY && hasZ {
      assert ACandidates(patterns) == [x, y, z];
      FirstTruthyTriple(x, y, z);
      OrAssociative(x, y, z);
    } else if hasX && hasY {
      assert ACandidates(patterns) == [x, y];
      FirstTruthyPair(x, y);
    } else if hasX && hasZ {
      assert ACandidates(patterns) == [x, z];
      FirstTruthyPair(x, z);
    } else if hasY && hasZ {
      assert ACandidates(patterns) == [y, z];
      FirstTruthyPair(y, z);
    } else if hasX {
      assert ACandidates(patterns) == [x];
    } else if hasY {
      assert ACandidates(patterns) == [y];
    } else if hasZ {
      assert ACandidates(patterns) == [z];
    } else {
      assert ACandidates(patterns) == [];
    }
  }

  /** B is the first truthy one of AB[1] (or AAB[2] when AB is absent), then ABC[1]. */
  lemma SlotB(patterns: map<string, PatternRecord>)
    ensures IngredientTypes(patterns).b == FirstTruthy(BCandidates(patterns))
  {
    var y := if "AB" in patterns then Ingredient(patterns, "AB", 1) else Ingredient(patterns, "AAB", 2);
    var z := Ingredient(patterns, "ABC", 1);
    var hasY, hasZ := "AB" in patterns || "AAB" in patterns, "ABC" in patterns;
    if hasY && hasZ {
      assert BCandidates(patterns) == [y, z];
      FirstTruthyPair(y, z);
    } else if hasY {
      assert BCandidates(patterns) == [y];
    } else if hasZ {
      assert BCandidates(patterns) == [z];
    } else {
      assert BCandidates(patterns) == [];
    }
  }

  /** A comes from AAA[0] whenever AAA is present with a non-empty first ingredient. */
  lemma SlotAFromAAA(patterns: map<string, PatternRecord>)
    requires "AAA" in patterns && Truthy(At(patterns["AAA"].ingredients, 0))
    ensures IngredientTypes(patterns).a == Some(patterns["AAA"].ingredients[0])
  {
    SlotA(patterns);
    assert ACandidates(patterns)[0] == At(patterns["AAA"].ingredients, 0);
  }

  /** B comes from AB[1] when AB is present, and from AAB[2] when only AAB is, whenever that is non-empty. */
  lemma SlotBFromABOrAAB(patterns: map<string, PatternRecord>)
    ensures "AB" in patterns && Truthy(Ingredient(patterns, "AB", 1)) ==>
      IngredientTypes(patterns).b == Ingredient(patterns, "AB", 1)
    ensures "AB" !in patterns && "AAB" in patterns && Truthy(Ingredient(patterns, "AAB", 2)) ==>
      IngredientTypes(patterns).b == Ingredient(patterns, "AAB", 2)
    ensures "AB" !in patterns && "AAB" !in patterns ==> IngredientTypes(patterns).b == Ingredient(patterns, "ABC", 1)
  {
  }

  /** C is set only when ABC is present, and then it is ABC[2]. */
  lemma SlotC(patterns: map<string, PatternRecord>)
    ensures IngredientTypes(patterns).c.Some? ==> "ABC" in patterns
    ensures IngredientTypes(patterns).c == Ingredient(patterns, "ABC", 2)
  {
  }

  /** ABC only fills A or B when they are still unset (falsy); it never overrides them. */
  lemma AbcNeverOverrides(patterns: map<string, PatternRecord>)
    ensures var without := IngredientTypes(patterns - {"ABC"});
      && (Truthy(without.a) ==> IngredientTypes(patterns).a == without.a)
      && (Truthy(without.b) ==> IngredientTypes(patterns).b == without.b)
      && without.c == None
  {
    var q := patterns - {"ABC"};
    assert forall code :: code != "ABC" ==> (code in q <==> code in patterns);
    assert forall code, i :: code != "ABC" ==> Ingredient(q, code, i) == Ingredient(patterns, code, i);
  }

  /** The `ingredientType` memo: which slot, tried in the order A, B, C, holds the selection */
  function IngredientType(slots: IngredientSlots, selected: string): (r: string)
    ensures r == "A" <==> slots.a == Some(selected)
    ensures r == "B" <==> slots.a != Some(selected) && slots.b == Some(selected)
    ensures r == "C" <==> slots.a != Some(selected) && slots.b != Some(selected) && slots.c == Some(selected)
    ensures r == "" <==> slots.a != Some(selected) && slots.b != Some(selected) && slots.c != Some(selected)
  {
    if slots.a == Some(selected) then "A"
    else if slots.b == Some(selected) then "B"
    else if slots.c == Some(selected) then "C"
    else ""
  }

  /** When A and B are the same ingredient, the label is never B. */
  lemma SameABNeverB(slots: IngredientSlots, selected: string)
    requires slots.a == slots.b
    ensures IngredientType(slots, selected) != "B"
    ensures slots.a == Some(selected) ==> IngredientType(slots, selected) == "A"
  {
  }
}
