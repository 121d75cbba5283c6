# Pokemon Sleep ingredient table: a Dafny model

This project models the core of F-mM7/db-test. That repository scrapes the Pokemon Sleep
wiki's ingredient table and shows it in two React views. The model covers five parts:

- **Decoder** (`scripts/parse-wiki-data.js`, module `WikiTable`). It picks the main
  table of the page, skips header and label rows, and decodes each data row into an
  entity: a name, the level values read from cells 1–3, and the ingredient patterns
  found by scanning for pattern codes from cell 4 onwards. It numbers the entities
  1..n and falls back to a fixed sample data set when nothing decodes. It also builds
  the sorted index of all ingredients.
- **Ingredient search** (`src/components/IngredientFilter.jsx`, module
  `IngredientFilter`). It finds the entities one of whose Lv.60 patterns lists the
  selected ingredient and orders them by their best individual value. For each result
  card it computes the best pattern and the A/B/C slot of the selection. The
  component's state is a class whose methods are its handlers.
- **Card** (`src/components/PokemonCard.jsx`, module `PokemonCard`). It infers the
  A/B/C ingredient slots from the patterns and labels the slot the selection is in.
  The ingredient search's cards use the same definitions, because that file repeats
  the same code.
- **Data table** (`src/components/PokemonDataTable.jsx`, module `PokemonDataTable`).
  It covers the name search, the value cell of a pattern at a level, and the list of
  all pattern codes.
- **Structure analyser** (`scripts/analyze-table-structure.js`, module
  `TableStructure`). It holds the catalog of column groups of a full 34-cell row, the
  ranges printed for them, the image-alt and link-text fallbacks of a cell, and the
  sampling of the first three body rows.

The supporting modules model the JavaScript built-ins the core relies on:

- `Strings`: `includes`, `trim`, `split(/[,、]/)` and the default `sort` order.
- `Seqs`: `filter`, the stable comparator `sort` and `Math.max`.
- `Wrappers`: `Option`.
- `PokemonData`: the entity records.

The document is given to the decoder as its tables. A table is its rows, and a row is
its cells. Each cell carries whether it is a `th` and its trimmed text.
`parseFloat` and `toLowerCase` are parameters. I/O, logging and rendering are not modelled.

Four facts about the code shape the decoder's model:

- The decoder scans each row for pattern codes from cell 4 onwards
  (scripts/parse-wiki-data.js:188-213). The fixed 34-cell column layout appears only as
  the analyser's catalog (scripts/analyze-table-structure.js:80-90), and it is modelled
  as that catalog.
- No code reads a cell's `title`, so a cell is modelled without one.
- Only rows holding a `th` cell are skipped as headers (scripts/parse-wiki-data.js:120-122).
- Level 60 is read only from cell 3 (scripts/parse-wiki-data.js:178-185).

A consequence proved here: the decoder stores only `values` and the search reads only
`individualValues`. So for every decoded or sample entity, the best value of every
ingredient is 0 (`IngredientFilter.DecodedEntitiesShowNoValue`).

## Model

| member | source | states |
|---|---|---|
| Strings.IsWhitespace | scripts/parse-wiki-data.js:202 | definition: the characters `trim` removes, the ECMAScript white space and line terminators |
| Strings.Trimmed | scripts/parse-wiki-data.js:202 | definition: a string that neither starts nor ends with white space |
| Strings.SkipWhitespace | scripts/parse-wiki-data.js:202 | the kept part of `trim` starts at the first character that is not white space: everything before it is white space |
| Strings.SkipWhitespaceBack | scripts/parse-wiki-data.js:202 | the kept part of `trim` ends after the last character that is not white space: everything after it is white space |
| Strings.Trim | scripts/parse-wiki-data.js:202 | the trimmed string neither starts nor ends with white space |
| Strings.TrimMargins | scripts/parse-wiki-data.js:202 | `trim` keeps a contiguous middle part of its input and removes only white space on either side |
| Strings.TrimIdempotent | scripts/parse-wiki-data.js:202 | trimming a trimmed string changes nothing |
| Strings.IsSeparator | scripts/parse-wiki-data.js:202 | definition: the two separators of `/[,、]/`, the ASCII comma and the ideographic comma |
| Strings.NoSeparator | scripts/parse-wiki-data.js:202 | definition: a string holding neither separator |
| Strings.Split | scripts/parse-wiki-data.js:202 | `split(/[,、]/)` yields at least one piece, and no piece contains a separator |
| Strings.Join | scripts/parse-wiki-data.js:202 | definition: the pieces joined with `,` between them, the reference inverse of `split` |
| Strings.JoinSplit | scripts/parse-wiki-data.js:202 | joining the pieces with "," gives back the input with every `、` written as `,`, so splitting loses nothing but the separators' kind |
| Strings.SplitJoin | scripts/parse-wiki-data.js:202 | separator-free pieces, once joined, split back into exactly those pieces |
| Strings.SplitNoSeparator | scripts/parse-wiki-data.js:202 | a string without separators splits into itself alone |
| Strings.SplitPrefix | scripts/parse-wiki-data.js:202 | a separator-free prefix joins the first piece of the rest |
| Strings.Normalize | scripts/parse-wiki-data.js:202 | writing every `、` as `,` keeps the length |
| Strings.Contains | src/components/PokemonDataTable.jsx:28 | definition of `includes`: `sub` is a prefix of `s` or of one of its suffixes (also the `'Lv.'` test of scripts/parse-wiki-data.js:127) |
| Strings.Less | scripts/parse-wiki-data.js:229 | definition of the default `sort` comparison: lexicographic order on characters, a proper prefix before the longer string |
| Strings.LessIrreflexive | scripts/parse-wiki-data.js:229 | the default sort order is irreflexive |
| Strings.LessTransitive | scripts/parse-wiki-data.js:229 | the default sort order is transitive |
| Strings.LessTotal | scripts/parse-wiki-data.js:229 | any two distinct strings are ordered one way or the other |
| Strings.StrictlySorted | scripts/parse-wiki-data.js:229 | definition: each element is `Less` than every later one |
| Strings.StrictlySortedDistinct | scripts/parse-wiki-data.js:229 | a strictly sorted list has no duplicates |
| Strings.Insert | scripts/parse-wiki-data.js:229 | definition: a string put in its place in a sorted sequence, left out when already present |
| Strings.InsertElements | scripts/parse-wiki-data.js:229 | inserting into a sorted list adds exactly the new element, and a new element grows the list by one |
| Strings.ConsSorted | scripts/parse-wiki-data.js:229 | an element below all of a sorted list can go in front of it |
| Strings.InsertSorted | scripts/parse-wiki-data.js:229 | inserting keeps a list strictly sorted |
| Strings.SortedSeq | scripts/parse-wiki-data.js:229 | `Array.from(set).sort()` holds exactly the set's elements, each once, in increasing order |
| Seqs.Filter | src/components/IngredientFilter.jsx:43-50 | `filter` keeps only passing elements and never grows the list |
| Seqs.IsSubsequence | src/components/PokemonDataTable.jsx:27-29 | definition: the first sequence is the second with some elements left out, the rest in order |
| Seqs.FilterIsSubsequence | src/components/PokemonDataTable.jsx:27-29 | `filter` keeps the kept elements in their original order |
| Seqs.FilterMultiset | src/components/IngredientFilter.jsx:43-50 | `filter` keeps every passing element, as often as it occurs, and drops the others |
| Seqs.FilterMembers | src/components/IngredientFilter.jsx:43-50 | an element is kept exactly when it is in the input and passes |
| Seqs.FilterKeeps | scripts/parse-wiki-data.js:202 | a property of every element holds for every kept element |
| Seqs.FilterAll | src/components/PokemonDataTable.jsx:27-29 | when every element passes, `filter` returns its input |
| Seqs.FilterAppend | scripts/parse-wiki-data.js:114-142 | filtering distributes over concatenation |
| Seqs.FilterSingleton | src/components/IngredientFilter.jsx:43-50 | filtering one element keeps it exactly when it passes |
| Seqs.SortedDesc | src/components/IngredientFilter.jsx:53-68 | definition: keys never increase along the sequence, the order the comparator `b - a` asks for |
| Seqs.KeyIs | src/components/IngredientFilter.jsx:53-68 | definition: the elements whose key is a given value, used to state stability |
| Seqs.InsertDesc | src/components/IngredientFilter.jsx:53-68 | an insertion step of the sort adds one element |
| Seqs.SortDesc | src/components/IngredientFilter.jsx:53-68 | the sort keeps the length |
| Seqs.InsertDescMultiset | src/components/IngredientFilter.jsx:53-68 | an insertion step adds exactly one element |
| Seqs.InsertDescSorted | src/components/IngredientFilter.jsx:53-68 | an insertion step keeps the list in non-increasing key order |
| Seqs.ConsSortedDesc | src/components/IngredientFilter.jsx:53-68 | an element whose key is at least every key of a sorted list can go in front of it |
| Seqs.SortDescPermutation | src/components/IngredientFilter.jsx:53-68 | the descending sort is a permutation of its input |
| Seqs.SortDescSorted | src/components/IngredientFilter.jsx:53-68 | the `key(b) - key(a)` sort orders by non-increasing key |
| Seqs.InsertDescStable | src/components/IngredientFilter.jsx:53-68 | an insertion step places the new element before all elements with its key |
| Seqs.SortDescStable | src/components/IngredientFilter.jsx:53-68 | elements with equal keys keep their input order, so the sort is stable |
| Seqs.Max | src/components/IngredientFilter.jsx:64 | `Math.max` of a non-empty list is one of its elements and at least every element |
| PokemonData.OccursAsIngredient | scripts/parse-wiki-data.js:221-227 | definition: a name is an ingredient of some pattern of some entity |
| PokemonData.OccursAsPatternKey | src/components/PokemonDataTable.jsx:40-44 | definition: a code is a pattern key of some entity |
| WikiTable.SampleRecord | scripts/parse-wiki-data.js:232-318 | definition: a sample pattern, its ingredients and its values at levels "1", "30" and "60", with no individual values |
| WikiTable.SampleLevels | scripts/parse-wiki-data.js:232-318 | definition: a sample entity's level values keyed "1", "30" and "60" |
| WikiTable.SampleData | scripts/parse-wiki-data.js:232-318 | the fallback data has six entities, numbered 1–6, that are named and hold patterns AA and AB |
| WikiTable.SampleDataNoIndividualValues | scripts/parse-wiki-data.js:232-318 | no pattern of a sample entity has individual values |
| WikiTable.NonEmpty | scripts/parse-wiki-data.js:202 | definition: the test of `.filter(s => s)`, a non-empty string |
| WikiTable.IsCleanPiece | scripts/parse-wiki-data.js:202 | definition: a trimmed piece of a split, with no separator |
| WikiTable.IsIngredientName | scripts/parse-wiki-data.js:202 | definition: a non-empty clean piece, the form of every stored ingredient name |
| WikiTable.TrimAll | scripts/parse-wiki-data.js:202 | `map(s => s.trim())` trims every piece and keeps their number |
| WikiTable.SplitIngredients | scripts/parse-wiki-data.js:202 | every listed ingredient is non-empty, trimmed and free of separators |
| WikiTable.TrimAllClean | scripts/parse-wiki-data.js:202 | trimmed split pieces are trimmed and free of separators |
| WikiTable.TrimNoSeparator | scripts/parse-wiki-data.js:202 | trimming never adds a separator |
| WikiTable.SplitIngredientsMembers | scripts/parse-wiki-data.js:202 | a name is listed exactly when it is the non-empty trimmed form of some piece between separators |
| WikiTable.LevelKey | scripts/parse-wiki-data.js:182 | definition: cell 1 is read for level "1", cell 2 for "30", cell 3 for "60" |
| WikiTable.IsPositiveLevel | scripts/parse-wiki-data.js:181 | definition: `!isNaN(value) && value > 0`, with NaN as no number |
| WikiTable.LevelBound | scripts/parse-wiki-data.js:178 | the level loop reads at most cells 1–3 and never past the row |
| WikiTable.LevelsUpTo | scripts/parse-wiki-data.js:178-185 | definition: the levels after cells 1 .. n - 1, each positive parsed number stored under its cell's level |
| WikiTable.Levels | scripts/parse-wiki-data.js:178-185 | definition: the levels after the whole loop, which stops at `min(4, cells.length)` |
| WikiTable.LevelsUpToRead | scripts/parse-wiki-data.js:178-185 | after cells 1..n-1, exactly the levels whose cell parsed positive are set, to that number, and only the keys 1/30/60 occur |
| WikiTable.LevelsRead | scripts/parse-wiki-data.js:178-185 | level 1/30/60 is set exactly when cell 1/2/3 exists and parses as a positive number, then holds that number; no other level is set |
| WikiTable.IsPatternName | scripts/parse-wiki-data.js:189-195 | definition: `patternNames.includes(text)`, one of the eight codes AA, AB, AAA, AAB, AAC, ABA, ABB, ABC |
| WikiTable.RecordAt | scripts/parse-wiki-data.js:195-211 | definition: a code cell followed by a non-empty cell that is not a code, whose split list is non-empty, yields that list with empty value maps; any other cell yields nothing |
| WikiTable.Scan | scripts/parse-wiki-data.js:191-213 | definition: the map built cell by cell from cell 4, each record stored under its cell's text, a later one overwriting an earlier one |
| WikiTable.PatternsUpTo | scripts/parse-wiki-data.js:191-213 | definition: the map after the pattern loop has scanned cells 4 .. n - 1 of the row |
| WikiTable.Patterns | scripts/parse-wiki-data.js:188-213 | definition: `pokemon.ingredientPatterns` after the whole pattern loop |
| WikiTable.Records | scripts/parse-wiki-data.js:191-213 | definition: the loop stores a record for a code at a given cell |
| WikiTable.WellFormedRecord | scripts/parse-wiki-data.js:205-208 | definition: a stored record has ingredient names that are non-empty and clean, at least one of them, and empty value maps |
| WikiTable.RecordsExactly | scripts/parse-wiki-data.js:191-213 | a cell at index ≥ 4 records a pattern exactly when it is one of the 8 codes and the next cell exists, is non-empty, is not a code, and lists ingredients; the record holds those ingredients |
| WikiTable.CellRecords | scripts/parse-wiki-data.js:191-213 | one entry per cell: the record that cell yields, if any |
| WikiTable.ScanKeys | scripts/parse-wiki-data.js:191-213 | a text is a key of the scanned map exactly when some scanned cell has it and yields a record |
| WikiTable.ScanLast | scripts/parse-wiki-data.js:204-209 | the value under a key is the record of the last scanned cell with that text that yields one |
| WikiTable.ScanFrom | scripts/parse-wiki-data.js:191-213 | every stored value is the record yielded by a scanned cell whose text is its key |
| WikiTable.PatternsUpToKeys | scripts/parse-wiki-data.js:191-213 | a code is stored exactly when some scanned cell records it |
| WikiTable.PatternsUpToLast | scripts/parse-wiki-data.js:204-209 | the stored record is the one of the last cell that records the code, so a later occurrence overwrites an earlier one |
| WikiTable.PatternsUpToStep | scripts/parse-wiki-data.js:191-213 | one more loop iteration stores the cell's record under its text when it yields one, and otherwise changes nothing |
| WikiTable.RecordAtWellFormed | scripts/parse-wiki-data.js:195-208 | a cell that yields a record holds a pattern code, and the record has non-empty clean ingredients and empty values |
| WikiTable.PatternsUpToWellFormed | scripts/parse-wiki-data.js:189-213 | every stored key is a code, and every record has non-empty clean ingredients and empty value maps |
| WikiTable.PatternsWellFormed | scripts/parse-wiki-data.js:189-213 | every pattern of a row is keyed by a code and well formed |
| WikiTable.DecodeRow | scripts/parse-wiki-data.js:155-216 | definition of `parsePokemonRow`: null for fewer than three cells, an empty name or no pattern; otherwise the entity with the given id, the first cell as name, its levels and its patterns |
| WikiTable.DecodeRowFails | scripts/parse-wiki-data.js:156-215 | `parsePokemonRow` returns null exactly when the row has fewer than 3 cells, an empty name, or no recording cell |
| WikiTable.DecodeRowEntity | scripts/parse-wiki-data.js:161-215 | a decoded entity carries the given id and the row's name, and has non-empty, well-formed patterns |
| WikiTable.ParsePokemonRow | scripts/parse-wiki-data.js:155-216 | the two loops build exactly the row's levels and patterns, and the result is `DecodeRow` |
| WikiTable.HasHeaderCell | scripts/parse-wiki-data.js:120-122 | definition: the row holds a `th` cell |
| WikiTable.IsCandidateRow | scripts/parse-wiki-data.js:115-127 | definition: a row that reaches `parsePokemonRow`: it has cells, no `th`, and a first cell that is non-empty and does not contain "Lv." |
| WikiTable.DecodeRows | scripts/parse-wiki-data.js:114-142 | definition: `pokemonList` after the rows, in order: each candidate row that decodes is appended with the next id |
| WikiTable.CountCandidates | scripts/parse-wiki-data.js:127-140 | definition: the number of candidate rows, each of which counts once as a success or a failure |
| WikiTable.DecodeRowsWellFormed | scripts/parse-wiki-data.js:128-140 | output ids are exactly 1..n in order; each entity's name is non-empty and lacks `Lv.`, and its patterns are non-empty and well formed |
| WikiTable.DecodeRowsPrefix | scripts/parse-wiki-data.js:114-142 | entities appear in row order: later rows never change earlier entities |
| WikiTable.DecodeRowsSnoc | scripts/parse-wiki-data.js:114-142 | one more row appends its entity, numbered after the previous ones, exactly when it is a candidate that decodes; otherwise nothing changes |
| WikiTable.CountCandidatesSnoc | scripts/parse-wiki-data.js:117-127 | one more row adds one candidate exactly when it is a candidate row |
| WikiTable.DecodeRowsOnlyCandidates | scripts/parse-wiki-data.js:117-127 | empty rows, rows with a `th`, and rows whose first cell is empty or contains `Lv.` have no effect, not even on the ids |
| WikiTable.DecodeRowsCount | scripts/parse-wiki-data.js:128-140 | at most one entity per candidate row |
| WikiTable.LoopState | scripts/parse-wiki-data.js:110-142 | definition: the loop state after some rows: their decoded entities, the next id, and success and failure counts that add up to their candidates |
| WikiTable.DecodeTable | scripts/parse-wiki-data.js:110-142 | the row loop returns exactly the decoded entities; `successfulParses` counts them and `successfulParses + failedParses` counts the candidate rows |
| WikiTable.VisitRow | scripts/parse-wiki-data.js:114-141 | one row of the loop: a candidate that decodes is appended and advances the id and the success count; every other candidate counts as a failure; non-candidates change nothing; from the state the earlier rows leave, the new state is the one those rows plus this row leave |
| WikiTable.IsMainTable | scripts/parse-wiki-data.js:81-91 | definition: the table the `rows > maxRows` loop picks: non-empty, no table longer, every earlier table strictly shorter |
| WikiTable.MainTableUnique | scripts/parse-wiki-data.js:81-91 | at most one table is the main table |
| WikiTable.SelectMainTable | scripts/parse-wiki-data.js:81-91 | no table is selected exactly when every table is empty; otherwise the selected table is the first one with the greatest row count |
| WikiTable.WithFallback | scripts/parse-wiki-data.js:147-152 | definition: the sample data when no entity decodes, otherwise the decoded entities |
| WikiTable.ParseHTMLTable | scripts/parse-wiki-data.js:64-153 | no table or only empty tables give the sample data; otherwise the main table's entities, or the sample data when it yields none; the result is non-empty, numbered 1..n, and every entity has patterns |
| WikiTable.CodesIngredients | scripts/parse-wiki-data.js:222-226 | definition: the ingredient names of the given patterns of one entity |
| WikiTable.AllIngredients | scripts/parse-wiki-data.js:221-227 | definition: the ingredient set after the `forEach` over all entities |
| WikiTable.AllIngredientsOccur | scripts/parse-wiki-data.js:218-230 | the accumulated set is exactly the ingredients of all patterns of all entities |
| WikiTable.CodesIngredientsAdd | scripts/parse-wiki-data.js:222-226 | visiting one more pattern adds exactly its ingredients |
| WikiTable.AddIngredients | scripts/parse-wiki-data.js:223-225 | adding a pattern's ingredients one by one adds exactly its ingredients to the set |
| WikiTable.AddPatternIngredients | scripts/parse-wiki-data.js:222-226 | visiting every pattern of an entity adds exactly the ingredients of all its patterns |
| WikiTable.ExtractUniqueIngredients | scripts/parse-wiki-data.js:218-230 | the result is strictly sorted (so duplicate-free) and holds exactly the ingredients of all patterns of all entities |
| PokemonCard.At | src/components/PokemonCard.jsx:13 | an index past the end gives `undefined` |
| PokemonCard.Truthy | src/components/PokemonCard.jsx:18 | definition: the truthiness of a slot value, present and not the empty string |
| PokemonCard.Or | src/components/PokemonCard.jsx:18 | definition: `x || y`, the left value when truthy, else the right |
| PokemonCard.Ingredient | src/components/PokemonCard.jsx:12-13 | definition: `patterns[code].ingredients[i]` when the pattern is present, otherwise nothing |
| PokemonCard.FirstTruthy | src/components/PokemonCard.jsx:18-28 | a `\|\|` chain gives its first truthy candidate, or its last candidate when none is truthy |
| PokemonCard.OrAssociative | src/components/PokemonCard.jsx:18-28 | `(x \|\| y) \|\| z` equals `x \|\| (y \|\| z)` |
| PokemonCard.FirstTruthyPair | src/components/PokemonCard.jsx:18-28 | a two-candidate chain is one `\|\|` |
| PokemonCard.FirstTruthyTriple | src/components/PokemonCard.jsx:18-28 | a three-candidate chain is two `\|\|` |
| PokemonCard.IngredientTypes | src/components/PokemonCard.jsx:7-33 | definition of the `ingredientTypes` memo, the same code as src/components/IngredientFilter.jsx:128-154: A, B and C as its straight-line assignments leave them |
| PokemonCard.ACandidates | src/components/PokemonCard.jsx:12-28 | definition: the values consulted for A, in the order the assignments consult them |
| PokemonCard.BCandidates | src/components/PokemonCard.jsx:17-28 | definition: the values consulted for B, in the order the assignments consult them |
| PokemonCard.SlotA | src/components/PokemonCard.jsx:12-28 | A is the first truthy one of AAA[0], then AB[0] (AAB[0] only when AB is absent), then ABC[0], over the patterns present |
| PokemonCard.SlotB | src/components/PokemonCard.jsx:17-28 | B is AB[1] when AB is present, else AAB[2]; ABC[1] is used only when that is unset |
| PokemonCard.SlotAFromAAA | src/components/PokemonCard.jsx:12-14 | A is AAA[0] whenever AAA is present and its first ingredient is non-empty |
| PokemonCard.SlotBFromABOrAAB | src/components/PokemonCard.jsx:17-23 | B is AB[1] when AB is present, else AAB[2], when that is non-empty; with neither, B is ABC[1] |
| PokemonCard.SlotC | src/components/PokemonCard.jsx:26-30 | C is set only when ABC is present, and then it is ABC[2] |
| PokemonCard.AbcNeverOverrides | src/components/PokemonCard.jsx:27-28 | adding ABC never changes an A or B that is already set, and without ABC C is unset |
| PokemonCard.IngredientType | src/components/PokemonCard.jsx:36-41 | the label is A, B or C for the first slot (in that order) that equals the selection, and '' when none does |
| PokemonCard.SameABNeverB | src/components/PokemonCard.jsx:36-41 | when A equals B, the label is never B, and it is A when they hold the selection |
| IngredientFilter.HasLv60Ingredient | src/components/IngredientFilter.jsx:45-49 | definition: some Lv.60 pattern of the entity lists the ingredient |
| IngredientFilter.Lv1And30PatternsNeverQualify | src/components/IngredientFilter.jsx:43-50 | an entity with only AA and AB patterns never qualifies |
| IngredientFilter.QualifiesIndependentOfLowPatterns | src/components/IngredientFilter.jsx:43-50 | adding or replacing AA, or removing AB, never changes whether an entity qualifies |
| IngredientFilter.PatternValue | src/components/IngredientFilter.jsx:58-60 | definition: `pattern?.individualValues?.[ingredient] || 0` |
| IngredientFilter.IsPositiveValue | src/components/IngredientFilter.jsx:62 | definition: `value > 0` |
| IngredientFilter.Lv60Values | src/components/IngredientFilter.jsx:56-61 | one value per Lv.60 pattern, in Lv.60 order, each `individualValues[ingredient]` or 0 |
| IngredientFilter.MaxValue | src/components/IngredientFilter.jsx:54-65 | `getMaxValue` is ≥ 0, at least every Lv.60 value, and either 0 or one of those values |
| IngredientFilter.Qualifies | src/components/IngredientFilter.jsx:43-50 | definition: the test of the `filter` |
| IngredientFilter.BestValue | src/components/IngredientFilter.jsx:54-67 | definition: the sort key, `getMaxValue` |
| IngredientFilter.SearchResults | src/components/IngredientFilter.jsx:43-68 | definition: the qualifying entities sorted by best value, largest first |
| IngredientFilter.SearchResultsPermutation | src/components/IngredientFilter.jsx:43-68 | the results are exactly the qualifying entities, each as often as it occurs in the data |
| IngredientFilter.SearchResultsMembers | src/components/IngredientFilter.jsx:43-50 | an entity is shown exactly when one of its AAA, AAB, AAC, ABA, ABB and ABC patterns exists and lists the ingredient |
| IngredientFilter.SearchResultsSorted | src/components/IngredientFilter.jsx:53-68 | the results are ordered by non-increasing `getMaxValue` |
| IngredientFilter.SearchResultsStable | src/components/IngredientFilter.jsx:53-68 | entities with the same best value keep their data order |
| IngredientFilter.Lv60Items | src/components/IngredientFilter.jsx:114-119 | one `{ patternName, value }` item per Lv.60 pattern, in Lv.60 order |
| IngredientFilter.ItemIsPositive | src/components/IngredientFilter.jsx:120 | definition: `item.value > 0` |
| IngredientFilter.ReduceMax | src/components/IngredientFilter.jsx:122-125 | definition: the `reduce` that replaces the running item only with a strictly larger one |
| IngredientFilter.ReduceMaxSpec | src/components/IngredientFilter.jsx:122-125 | the reduction returns its start value or an item strictly above it that every earlier item is strictly below; no item exceeds the result |
| IngredientFilter.ReduceMaxSkipsNonPositive | src/components/IngredientFilter.jsx:120-125 | dropping non-positive items does not change the reduction from a non-negative start |
| IngredientFilter.MaxItem | src/components/IngredientFilter.jsx:113-125 | the value is `getMaxValue`; the name is '' exactly when no value is positive; on ties the earliest Lv.60 pattern wins |
| IngredientFilter.MaxItemValue | src/components/IngredientFilter.jsx:113-125 | the reduction over the positive items reaches `getMaxValue` |
| IngredientFilter.ReduceMaxReaches | src/components/IngredientFilter.jsx:120-125 | over items bounded by a non-negative value that is 0 or some item's value, the reduction over the positive items reaches that value |
| IngredientFilter.ReduceMaxWinner | src/components/IngredientFilter.jsx:120-125 | over named items, the reduction over the positive items has no name exactly when its value is 0, and otherwise is the first item with the largest value |
| IngredientFilter.MaxItemWinner | src/components/IngredientFilter.jsx:120-125 | the reduction over the positive items has name '' exactly when its value is 0, and otherwise returns the first Lv.60 pattern with its value |
| IngredientFilter.NoIndividualValuesNoBest | src/components/IngredientFilter.jsx:59 | an entity without individual values has best value 0 and no best pattern |
| IngredientFilter.DecodedEntitiesShowNoValue | src/components/IngredientFilter.jsx:59 | every decoded entity has best value 0 and no best pattern for every ingredient |
| IngredientFilter.SampleEntitiesShowNoValue | src/components/IngredientFilter.jsx:59 | every sample entity has best value 0 for every ingredient |
| IngredientFilter.ResultCard | src/components/IngredientFilter.jsx:111-166 | a card shows the best value, a C slot only with ABC, label A exactly when A holds the selection, and label '' exactly when no slot holds it |
| IngredientFilter.IngredientFilterState.ShowsSelection | src/components/IngredientFilter.jsx:40-71 | definition: with an ingredient selected, the results are that ingredient's search results |
| IngredientFilter.IngredientFilterState.constructor | src/components/IngredientFilter.jsx:5-9 | the initial state: no data, no index, no selection, no results, loading |
| IngredientFilter.IngredientFilterState.ExtractIngredients | src/components/IngredientFilter.jsx:25-38 | the index is strictly sorted and holds exactly the ingredients of all patterns; nothing else changes |
| IngredientFilter.IngredientFilterState.Load | src/components/IngredientFilter.jsx:14-18 | the data is stored and indexed, and loading ends |
| IngredientFilter.IngredientFilterState.LoadFailed | src/components/IngredientFilter.jsx:19-22 | a failed fetch only ends loading |
| IngredientFilter.IngredientFilterState.HandleIngredientClick | src/components/IngredientFilter.jsx:40-71 | the ingredient becomes the selection and the results are its search results; nothing else changes |
| IngredientFilter.IngredientFilterState.ClearFilter | src/components/IngredientFilter.jsx:73-76 | the selection becomes null and the results empty; nothing else changes |
| PokemonDataTable.NameMatches | src/components/PokemonDataTable.jsx:28 | definition: the lower-cased name includes the lower-cased term |
| PokemonDataTable.NameFilter | src/components/PokemonDataTable.jsx:27-29 | definition: the `filter` of the data by that test |
| PokemonDataTable.NameFilterSpec | src/components/PokemonDataTable.jsx:26-31 | the shown entities are an order-preserving subsequence of the data, holding every entity whose lower-cased name contains the lower-cased term, each as often as in the data |
| PokemonDataTable.ContainsEmpty | src/components/PokemonDataTable.jsx:28 | every name contains the empty string |
| PokemonDataTable.EmptyTermKeepsAll | src/components/PokemonDataTable.jsx:27-29 | an empty search term keeps every entity |
| PokemonDataTable.GetPatternValue | src/components/PokemonDataTable.jsx:33-36 | '-' when the pattern is absent; otherwise `values[level]` when it is present and non-zero, else '-' |
| PokemonDataTable.GetPatternValueIgnoresIndividualValues | src/components/PokemonDataTable.jsx:35 | the cell reads only `values`, never `individualValues` |
| PokemonDataTable.AllCodes | src/components/PokemonDataTable.jsx:39-44 | definition: the code set after the `forEach` over all entities |
| PokemonDataTable.AllCodesOccur | src/components/PokemonDataTable.jsx:38-46 | the accumulated set is exactly the pattern keys of all entities |
| PokemonDataTable.AddCodes | src/components/PokemonDataTable.jsx:41-43 | adding an entity's pattern keys one by one adds exactly those keys to the set |
| PokemonDataTable.GetAllPatterns | src/components/PokemonDataTable.jsx:38-46 | the result is strictly sorted (so duplicate-free) and holds exactly the pattern keys of all entities |
| PokemonDataTable.PokemonDataTableState.ShowsSearch | src/components/PokemonDataTable.jsx:26-31 | definition: the shown list is the name filter of the data by the current term |
| PokemonDataTable.PokemonDataTableState.constructor | src/components/PokemonDataTable.jsx:5-10 | the initial state: no data, the empty term, loading |
| PokemonDataTable.PokemonDataTableState.Load | src/components/PokemonDataTable.jsx:14-18 | the data is stored and shown in full, and loading ends |
| PokemonDataTable.PokemonDataTableState.LoadFailed | src/components/PokemonDataTable.jsx:19-22 | a failed fetch only ends loading |
| PokemonDataTable.PokemonDataTableState.SetSearchTerm | src/components/PokemonDataTable.jsx:64 | the input replaces the term only |
| PokemonDataTable.PokemonDataTableState.SearchEffect | src/components/PokemonDataTable.jsx:26-31 | after the effect the table shows exactly the name matches of the current term |
| PokemonDataTable.LoadThenSearch | src/components/PokemonDataTable.jsx:12-31 | on mount with the initial empty term, the table shows all the data |
| TableStructure.Catalog | scripts/analyze-table-structure.js:80-90 | definition: the nine column groups, each with its name, first cell and width |
| TableStructure.Contiguous | scripts/analyze-table-structure.js:80-90 | definition: each group starts where the previous one ends |
| TableStructure.End | scripts/analyze-table-structure.js:80-90 | definition: the cell after the last group |
| TableStructure.InGroup | scripts/analyze-table-structure.js:93 | definition: a cell lies in the range a group covers |
| TableStructure.CatalogShape | scripts/analyze-table-structure.js:80-90 | the groups are contiguous, start at cell 2, end at cell 33, and are 2, 4 or 6 cells wide |
| TableStructure.ContiguousOrdered | scripts/analyze-table-structure.js:80-90 | each group of contiguous groups lies wholly before every later one |
| TableStructure.ContiguousCovers | scripts/analyze-table-structure.js:80-90 | in contiguous groups, every cell from the first start to the end lies in exactly one group |
| TableStructure.CatalogCoversRow | scripts/analyze-table-structure.js:80-90 | every cell 2–33 of a full row lies in exactly one column group |
| TableStructure.PrintedRange | scripts/analyze-table-structure.js:93 | the printed range of a group runs from its start to start + cells - 1 |
| TableStructure.PrintedRanges | scripts/analyze-table-structure.js:92-94 | one line per group, in catalog order |
| TableStructure.PrintedRangesContiguous | scripts/analyze-table-structure.js:92-94 | for contiguous groups, each printed range begins one cell after the previous one ends |
| TableStructure.PrintedRangesSpan | scripts/analyze-table-structure.js:92-94 | for contiguous groups the printed ranges run without a gap from the first group's start to the cell before the end, one line per group under its name |
| TableStructure.PrintedRangesOfCatalog | scripts/analyze-table-structure.js:92-94 | each printed range begins one cell after the previous one ends, and together they run from 2 to 33 |
| TableStructure.ImgAlt | scripts/analyze-table-structure.js:58-59 | '' without an image, else the first image's `alt`, which may be absent |
| TableStructure.LinkText | scripts/analyze-table-structure.js:62-63 | '' without a link; the result never starts or ends with white space |
| TableStructure.Concat | scripts/analyze-table-structure.js:63 | definition: the text of several links, their texts joined in order |
| TableStructure.LinkTextMargins | scripts/analyze-table-structure.js:62-63 | with links, the link text is their joined text with only white space removed at either end |
| TableStructure.LinkTextSingle | scripts/analyze-table-structure.js:62-63 | with one link, the link text is that link's trimmed text |
| TableStructure.SampleRows | scripts/analyze-table-structure.js:47 | at most the first three body rows are sampled, in order |

## Left out

- Reading the page and writing `pokemon-data.json` and the parse summary are I/O. This
  covers `parseWikiData`, scripts/parse-wiki-data.js:11-61,320-325. Their date,
  logging and `process.exit` are not modelled either.
- cheerio's HTML parsing and selector queries are not modelled. A table is given as
  its rows, and a row as its cells with their `th` flag and trimmed text. A table's
  row count is its number of rows, so nested tables are not modelled.
- The header row extraction, scripts/parse-wiki-data.js:101-107, only feeds a log
  line and an unused argument. It is not modelled.
- The `try`/`catch` around `parsePokemonRow` is not modelled. Nothing in the modelled
  row decoder can throw, so a throwing row, which would count as failed, does not arise.
- `parseFloat` is the parameter `parse`, with `None` standing for NaN. Floating-point
  arithmetic is modelled by `real`, so rounding is not captured.
- WikiTable.ParsePokemonRow: a level is stored as the number itself rather than a
  `{ value }` object.
- `toLowerCase` is the parameter `lower`, an arbitrary function on strings.
- PokemonDataTable.EmptyTermKeepsAll: it requires `lower("") == ""`, which `toLowerCase`
  satisfies but which the parameter does not guarantee.
- PokemonDataTable.LoadThenSearch: it requires `lower("") == ""`, for the same reason.
- The default order of `Array.prototype.sort` compares UTF-16 code units. The model
  compares characters (code points), so the two orders can differ for characters
  outside the Basic Multilingual Plane.
- Seqs.SortDesc: the built-in sort is modelled as a functional stable insertion sort.
  The in-place rearrangement of the `filtered` array is not modelled, and no other
  code holds that array.
- NaN is not a value of the model. So the model does not capture a NaN individual
  value, which `|| 0` turns into 0, or a NaN pattern value in `values`, which
  `getPatternValue` shows as '-'.
- The network `fetch` calls are left out. `scripts/download-wiki.js` and
  `scripts/fetch-pokemon-data.js` are left out too, since they are network I/O and a
  constant copy of the sample data.
- React rendering, `useMemo` caching, `toFixed` formatting and the display fallbacks
  of rendered cells are not modelled. This includes `levels[level]?.value \|\| '-'`
  and the joined ingredient list, src/components/PokemonDataTable.jsx:103-105.
  `ErrorBoundary`, `IngredientButton` and `App` are pure UI.
- The data table's level and pattern selectors only choose which cell is rendered.
  They are not modelled.
- The card's `maxItem`, src/components/PokemonCard.jsx:44-46, calls a function passed
  in by its parent, which is not part of the repository. It is not modelled.
- PokemonCard.IngredientType is modelled for a string selection. A `null`
  selection, which could equal an unset slot, is not modelled.
- Slot values do not distinguish `null` from `undefined`. The model only ever
  compares them with a string or tests their truthiness, where the two behave alike.
- The analyser's logging of header rows, column spans and row spans,
  scripts/analyze-table-structure.js:33-43, is output only. It is not modelled.
