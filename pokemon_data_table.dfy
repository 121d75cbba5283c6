/**
 * The data table of `src/components/PokemonDataTable.jsx`: the search by name, the
 * value shown for a pattern at a level, and the list of all pattern codes. The
 * component's state is a class whose methods are its effects and handlers.
 *
 * `toLowerCase` is the parameter `lower`, a total function on strings.
 */
module PokemonDataTable {
  import opened Wrappers
  import opened Strings
  import opened Seqs
  import opened PokemonData

  type Lowercase = string -> string

  // ---------------------------------------------------------------------------
  // The search effect

  function NameMatches(term: string, lower: Lowercase): Entity -> bool {
    (e: Entity) => Contains(lower(e.name), lower(term))
  }

  /** The entities whose lower-cased name contains the lower-cased search term */
  function NameFilter(data: seq<Entity>, term: string, lower: Lowercase): seq<Entity> {
    Filter(data, NameMatches(term, lower))
  }

  /** The matches keep the order they have in the data, and every entity whose name matches is kept. */
  lemma NameFilterSpec(data: seq<Entity>, term: string, lower: Lowercase)
    ensures IsSubsequence(NameFilter(data, term, lower), data)
    ensures forall e :: e in NameFilter(data, term, lower) <==> e in data && Contains(lower(e.name), lower(term))
    ensures forall e :: (multiset(NameFilter(data, term, lower))[e] ==
      if Contains(lower(e.name), lower(term)) then multiset(data)[e] else 0)
  {
    FilterIsSubsequence(data, NameMatches(term, lower));
    FilterMembers(data, NameMatches(term, lower));
    FilterMultiset(data, NameMatches(term, lower));
  }

  /** Every string contains the empty string. */
  lemma ContainsEmpty(s: string)
    ensures Contains(s, "")
  {
    assert "" <= s;
  }

  /** An empty search term keeps every entity (when lower-casing keeps "" empty). */
  lemma EmptyTermKeepsAll(data: seq<Entity>, lower: Lowercase)
    requires lower("") == ""
    ensures NameFilter(data, "", lower) == data
  {
    forall k | 0 <= k < |data| ensures NameMatches("", lower)(data[k]) {
      ContainsEmpty(lower(data[k].name));
    }
    FilterAll(data, NameMatches("", lower));
  }

  // ---------------------------------------------------------------------------
  // getPatternValue

  /** A table cell: the dash, or a number */
  datatype Display = Dash | Number(value: real)

  /** `getPatternValue`: '-' for an absent pattern; otherwise `values[level]`, or '-' when it is absent or 0 */
  function GetPatternValue(e: Entity, pattern: string, level: string): (r: Display)
    ensures pattern !in e.ingredientPatterns ==> r == Dash
    ensures r.Number? <==>
      pattern in e.ingredientPatterns && level in e.ingredientPatterns[pattern].values &&
      e.ingredientPatterns[pattern].values[level] != 0.0
    ensures r.Number? ==> r.value == e.ingredientPatterns[pattern].values[level] && r.value != 0.0
  {
    if pattern !in e.ingredientPatterns then Dash
    else
      var values := e.ingredientPatterns[pattern].values;
      if level in values && values[level] != 0.0 then Number(values[level]) else Dash
  }

  /** The cell ignores `individualValues`: the two value maps of a pattern are never mixed. */
  lemma GetPatternValueIgnoresIndividualValues(e: Entity, pattern: string, level: string, iv: map<string, real>)
    requires pattern in e.ingredientPatterns
    ensures var p := e.ingredientPatterns[pattern];
      GetPatternValue(e.(ingredientPatterns := e.ingredientPatterns[pattern := p.(individualValues := iv)]), pattern, level) ==
      GetPatternValue(e, pattern, level)
  {
  }

  // ---------------------------------------------------------------------------
  // getAllPatterns

  /** The codes of the patterns of the entities of `data` */
  ghost function AllCodes(data: seq<Entity>): set<string>
    decreases |data|
  {
    if data == [] then {} else AllCodes(data[..|data| - 1]) + data[|data| - 1].ingredientPatterns.Keys
  }

  lemma {:induction false} AllCodesOccur(data: seq<Entity>)
    ensures forall code :: code in AllCodes(data) <==> OccursAsPatternKey(data, code)
    decreases |data|
  {
    if data != [] {
      var init := data[..|data| - 1];
      AllCodesOccur(init);
      forall code ensures code in AllCodes(data) <==> OccursAsPatternKey(data, code) {
        if OccursAsPatternKey(data, code) {
          var i :| 0 <= i < |data| && code in data[i].ingredientPatterns;
          if i < |data| - 1 {
            assert data[i] == init[i];
          }
        }
        if OccursAsPatternKey(init, code) {
          var i :| 0 <= i < |init| && code in init[i].ingredientPatterns;
          assert data[i] == init[i];
        }
      }
    }
  }

  /** `Object.keys(pokemon.ingredientPatterns).forEach(pattern => patterns.add(pattern))` */
  method AddCodes(patterns: set<string>, keys: set<string>) returns (result: set<string>)
    ensures result == patterns + keys
  {
    result := patterns;
    var todo := keys;
    while todo != {}
      invariant result + todo == patterns + keys
      invariant result <= patterns + keys
      decreases |todo|
    {
      var code :| code in todo;
      result := result + {code};
      todo := todo - {code};
    }
  }

  /** `getAllPatterns`: every pattern code of every entity, sorted, each once */
  method GetAllPatterns(data: seq<Entity>) returns (patterns: seq<string>)
    ensures StrictlySorted(patterns)
    ensures forall code :: code in patterns <==> OccursAsPatternKey(data, code)
  {
    var codes: set<string> := {};
    for i := 0 to |data|
      invariant codes == AllCodes(data[..i])
    {
      codes := AddCodes(codes, data[i].ingredientPatterns.Keys);
      assert data[..i + 1][..i] == data[..i];
    }
    assert data[..|data|] == data;
    AllCodesOccur(data);
    patterns := SortedSeq(codes);
  }

  // ---------------------------------------------------------------------------
  // The component state

  class PokemonDataTableState {
    var pokemonData: seq<Entity>
    var filteredData: seq<Entity>
    var searchTerm: string
    var loading: bool

    /** The table shows the matches of the current search term */
    predicate ShowsSearch(lower: Lowercase)
      reads this
    {
      filteredData == NameFilter(pokemonData, searchTerm, lower)
    }

    /** The initial state of the hooks */
    constructor ()
      ensures pokemonData == [] && filteredData == [] && searchTerm == "" && loading
    {
      pokemonData := [];
      filteredData := [];
      searchTerm := "";
      loading := true;
    }

    /** The fetched data arrives: all of it is shown until the search effect runs */
    method Load(data: seq<Entity>)
      modifies this
      ensures pokemonData == data && filteredData == data && !loading
      ensures searchTerm == old(searchTerm)
    {
      pokemonData := data;
      filteredData := data;
      loading := false;
    }

    /** The fetch fails: only stop loading */
    method LoadFailed()
      modifies this
      ensures !loading
      ensures pokemonData == old(pokemonData) && filteredData == old(filteredData) && searchTerm == old(searchTerm)
    {
      loading := false;
    }

    /** The input changes the search term */
    method SetSearchTerm(term: string)
      modifies this
      ensures searchTerm == term
      ensures pokemonData == old(pokemonData) && filteredData == old(filteredData) && loading == old(loading)
    {
      searchTerm := term;
    }

    /** The effect on `[searchTerm, pokemonData]`: show the matches of the term */
    method SearchEffect(lower: Lowercase)
      modifies this
      ensures ShowsSearch(lower)
      ensures pokemonData == old(pokemonData) && searchTerm == old(searchTerm) && loading == old(loading)
    {
      var filtered := NameFilter(pokemonData, searchTerm, lower);
      filteredData := filtered;
    }
  }

  /** After loading and the effect with an empty term, the table shows every entity. */
  method LoadThenSearch(data: seq<Entity>, lower: Lowercase) returns (table: PokemonDataTableState)
    requires lower("") == ""
    ensures table.filteredData == data && table.pokemonData == data
  {
    table := new PokemonDataTableState();
    table.Load(data);
    table.SearchEffect(lower);
    EmptyTermKeepsAll(data, lower);
  }
}
