/**
 * The entity records that the decoder writes to `pokemon-data.json` and the
 * components read back.
 */
module PokemonData {

  /**
   * One ingredient pattern of an entity. `values` maps a level ("1", "30", "60") to a
   * yield and `individualValues` maps an ingredient to its yield; a field that the JSON
   * object does not have is the empty map.
   */
  datatype PatternRecord = PatternRecord(
    ingredients: seq<string>,
    values: map<string, real>,
    individualValues: map<string, real>)

  /** One character: `levels` maps a level ("1", "30", "60") to its base value. */
  datatype Entity = Entity(
    id: nat,
    name: string,
    levels: map<string, real>,
    ingredientPatterns: map<string, PatternRecord>)

  /** `x` is an ingredient of some pattern of some entity of `data` */
  ghost predicate OccursAsIngredient(data: seq<Entity>, x: string) {
    exists i, code :: 0 <= i < |data| && code in data[i].ingredientPatterns &&
      x in data[i].ingredientPatterns[code].ingredients
  }

  /** `code` is a pattern key of some entity of `data` */
  ghost predicate OccursAsPatternKey(data: seq<Entity>, code: string) {
    exists i :: 0 <= i < |data| && code in data[i].ingredientPatterns
  }
}
