/**
 * The wiki table decoder of `scripts/parse-wiki-data.js`: it picks the main table of
 * the downloaded page, classifies its rows, decodes every data row into an entity by
 * scanning for pattern codes, numbers the entities, and falls back to a fixed sample
 * data set when nothing can be decoded.
 *
 * The HTML document is given as its tables; a table is its rows (`tr`), a row its cells
 * (`td`, `th`), and a cell carries whether it is a `th` and its trimmed text.
 * `parseFloat` is the parameter `parse`, with `None` standing for NaN.
 */
module WikiTable {
  import opened Wrappers
  import opened Strings
  import opened Seqs
  import opened PokemonData

  /** A `td` (`isHeader` false) or `th` cell and its trimmed text content */
  datatype Cell = Cell(isHeader: bool, text: string)
  type Row = seq<Cell>
  type Table = seq<Row>

  /** `parseFloat`, with `None` for NaN */
  type NumberParser = string -> Option<real>

  /** The pattern codes the row scanner recognises */
  const PatternNames: seq<string> := ["AA", "AB", "AAA", "AAB", "AAC", "ABA", "ABB", "ABC"]

  predicate IsPatternName(s: string) {
    s in PatternNames
  }

  // ---------------------------------------------------------------------------
  // getSampleData

  function SampleRecord(ingredients: seq<string>, v1: real, v30: real, v60: real): (r: PatternRecord)
    ensures r.individualValues == map[]
  {
    PatternRecord(ingredients, map["1" := v1, "30" := v30, "60" := v60], map[])
  }

  function SampleLevels(v1: real, v30: real, v60: real): map<string, real> {
    map["1" := v1, "30" := v30, "60" := v60]
  }

  /**
   * The fixed data set returned when the page yields no entity: six entities numbered
   * 1 .. 6, each named, with patterns AA and AB.
   */
  function SampleData(): (r: seq<Entity>)
    ensures |r| == 6
    ensures forall k :: 0 <= k < |r| ==> r[k].id == k + 1 && r[k].name != ""
    ensures forall k :: 0 <= k < |r| ==> "AA" in r[k].ingredientPatterns && "AB" in r[k].ingredientPatterns
  {
    [ Entity(1, "フシギダネ", SampleLevels(1.5, 3.2, 5.8), map[
        "AA" := SampleRecord(["あまいミツ", "あまいミツ"], 2.1, 4.5, 8.2),
        "AB" := SampleRecord(["あまいミツ", "あんみんトマト"], 1.8, 3.9, 7.1),
        "AAA" := SampleRecord(["あまいミツ", "あまいミツ", "あまいミツ"], 3.2, 6.8, 12.3)]),
      Entity(2, "フシギソウ", SampleLevels(1.7, 3.6, 6.5), map[
        "AA" := SampleRecord(["あまいミツ", "あまいミツ"], 2.4, 5.0, 9.1),
        "AB" := SampleRecord(["あまいミツ", "あんみんトマト"], 2.0, 4.3, 7.8)]),
      Entity(3, "ピカチュウ", SampleLevels(2.0, 4.2, 7.6), map[
        "AA" := SampleRecord(["リンゴ", "リンゴ"], 2.8, 5.9, 10.6),
        "AB" := SampleRecord(["リンゴ", "ワカクサコーン"], 2.4, 5.0, 9.1),
        "AAA" := SampleRecord(["リンゴ", "リンゴ", "リンゴ"], 4.2, 8.8, 15.9)]),
      Entity(4, "イーブイ", SampleLevels(1.8, 3.8, 6.9), map[
        "AA" := SampleRecord(["モーモーミルク", "モーモーミルク"], 2.5, 5.3, 9.7),
        "AB" := SampleRecord(["モーモーミルク", "ふといながねぎ"], 2.2, 4.6, 8.3),
        "AAB" := SampleRecord(["モーモーミルク", "モーモーミルク", "ふといながねぎ"], 3.6, 7.6, 13.8)]),
      Entity(5, "カビゴン", SampleLevels(2.5, 5.3, 9.6), map[
        "AA" := SampleRecord(["きのみ", "きのみ"], 3.5, 7.4, 13.4),
        "AB" := SampleRecord(["きのみ", "ワカクサ大豆"], 3.0, 6.4, 11.5),
        "ABC" := SampleRecord(["きのみ", "ワカクサ大豆", "おいしいシッポ"], 5.0, 10.6, 19.2)]),
      Entity(6, "コダック", SampleLevels(1.6, 3.4, 6.1), map[
        "AA" := SampleRecord(["カカオ", "カカオ"], 2.2, 4.8, 8.5),
        "AB" := SampleRecord(["カカオ", "リラックスカカオ"], 1.9, 4.1, 7.3),
        "AAA" := SampleRecord(["カカオ", "カカオ", "カカオ"], 3.4, 7.1, 12.8)])
    ]
  }

  /** No sample entity has individual values. */
  lemma SampleDataNoIndividualValues(k: nat)
    requires k < |SampleData()|
    ensures var patterns := SampleData()[k].ingredientPatterns;
      forall code :: code in patterns ==> patterns[code].individualValues == map[]
  {
    var patterns := SampleData()[k].ingredientPatterns;
    // one sample entity at a time
    if k == 0 {} else if k == 1 {} else if k == 2 {} else if k == 3 {} else if k == 4 {}
  }

  // ---------------------------------------------------------------------------
  // Ingredient lists: text.split(/[,、]/).map(s => s.trim()).filter(s => s)

  function TrimAll(pieces: seq<string>): (r: seq<string>)
    ensures |r| == |pieces|
    ensures forall k :: 0 <= k < |r| ==> r[k] == Trim(pieces[k])
  {
    seq(|pieces|, k requires 0 <= k < |pieces| => Trim(pieces[k]))
  }

  function NonEmpty(s: string): bool {
    s != ""
  }

  /** A piece of a list after trimming: no white space at either end, no separator */
  predicate IsCleanPiece(s: string) {
    Trimmed(s) && NoSeparator(s)
  }

  /** A name as the ingredient lists hold it: non-empty, trimmed and free of separators */
  predicate IsIngredientName(s: string) {
    s != "" && IsCleanPiece(s)
  }

  /** The ingredient names listed in `text` */
  function SplitIngredients(text: string): (r: seq<string>)
    ensures forall k :: 0 <= k < |r| ==> IsIngredientName(r[k])
  {
    var trimmed := TrimAll(Split(text));
    TrimAllClean(Split(text));
    FilterKeeps(trimmed, NonEmpty, IsCleanPiece);
    Filter(trimmed, NonEmpty)
  }

  lemma TrimAllClean(pieces: seq<string>)
    requires forall k :: 0 <= k < |pieces| ==> NoSeparator(pieces[k])
    ensures forall k :: 0 <= k < |pieces| ==> IsCleanPiece(TrimAll(pieces)[k])
  {
    forall k | 0 <= k < |pieces| ensures IsCleanPiece(TrimAll(pieces)[k]) {
      TrimNoSeparator(pieces[k]);
    }
  }

  lemma TrimNoSeparator(s: string)
    requires NoSeparator(s)
    ensures NoSeparator(Trim(s))
  {
    TrimMargins(s);
    var i := SkipWhitespace(s, 0);
    forall k | 0 <= k < |Trim(s)| ensures !IsSeparator(Trim(s)[k]) {
      assert Trim(s)[k] == s[i + k];
    }
  }

  /** A name is listed exactly when it is the trimmed, non-empty form of a piece between separators. */
  lemma SplitIngredientsMembers(text: string, x: string)
    ensures x in SplitIngredients(text) <==>
      x != "" && exists k :: 0 <= k < |Split(text)| && Trim(Split(text)[k]) == x
  {
    var trimmed := TrimAll(Split(text));
    FilterMembers(trimmed, NonEmpty);
    if x in trimmed {
      var k :| 0 <= k < |trimmed| && trimmed[k] == x;
      assert Trim(Split(text)[k]) == x;
    }
    if exists k :: 0 <= k < |Split(text)| && Trim(Split(text)[k]) == x {
      var k :| 0 <= k < |Split(text)| && Trim(Split(text)[k]) == x;
      assert trimmed[k] == x;
    }
  }

  // ---------------------------------------------------------------------------
  // parsePokemonRow: levels from cells 1 .. min(3, |row| - 1)

  /** The level that cell `i` is read for: 1 -> "1", 2 -> "30", 3 -> "60" */
  function LevelKey(i: nat): string {
    if i == 1 then "1" else if i == 2 then "30" else "60"
  }

  /** `!isNaN(value) && value > 0` */
  predicate IsPositiveLevel(v: Option<real>) {
    v.Some? && v.value > 0.0
  }

  /** `Math.min(4, cells.length)`, the bound of the level loop */
  function LevelBound(row: Row): (n: nat)
    ensures n <= |row| && n <= 4
  {
    if |row| < 4 then |row| else 4
  }

  /** The levels set by the level loop after it has read cells 1 .. n - 1 */
  function LevelsUpTo(row: Row, parse: NumberParser, n: nat): map<string, real>
    requires n <= |row|
  {
    if n <= 1 then map[]
    else
      var m := LevelsUpTo(row, parse, n - 1);
      var v := parse(row[n - 1].text);
      if IsPositiveLevel(v) then m[LevelKey(n - 1) := v.value] else m
  }

  function Levels(row: Row, parse: NumberParser): map<string, real> {
    LevelsUpTo(row, parse, LevelBound(row))
  }

  lemma {:induction false} LevelsUpToRead(row: Row, parse: NumberParser, n: nat)
    requires n <= |row| && n <= 4
    ensures forall k :: k in LevelsUpTo(row, parse, n) ==> k == "1" || k == "30" || k == "60"
    ensures forall i :: 1 <= i <= 3 ==>
      (LevelKey(i) in LevelsUpTo(row, parse, n) <==> i < n && IsPositiveLevel(parse(row[i].text)))
    ensures forall i :: 1 <= i < n && LevelKey(i) in LevelsUpTo(row, parse, n) ==>
      IsPositiveLevel(parse(row[i].text)) && LevelsUpTo(row, parse, n)[LevelKey(i)] == parse(row[i].text).value
  {
    if n > 1 {
      LevelsUpToRead(row, parse, n - 1);
      assert LevelKey(1) != LevelKey(2) && LevelKey(1) != LevelKey(3) && LevelKey(2) != LevelKey(3);
    }
  }

  /**
   * Level `LevelKey(i)` is set exactly when cell `i` (1 <= i <= 3) exists and parses as a
   * positive number, and then it holds that number; no other level is set.
   */
  lemma LevelsRead(row: Row, parse: NumberParser, i: nat)
    requires 1 <= i <= 3
    ensures LevelKey(i) in Levels(row, parse) <==> i < |row| && IsPositiveLevel(parse(row[i].text))
    ensures LevelKey(i) in Levels(row, parse) ==>
      i < |row| && IsPositiveLevel(parse(row[i].text)) && Levels(row, parse)[LevelKey(i)] == parse(row[i].text).value
    ensures forall k :: k in Levels(row, parse) ==> k == "1" || k == "30" || k == "60"
  {
    LevelsUpToRead(row, parse, LevelBound(row));
  }

  // ---------------------------------------------------------------------------
  // parsePokemonRow: patterns from a code cell at index >= 4 and the ingredient cell after it

  /** The record the pattern loop stores when it is at cell `i`, under the key `row[i].text` */
  function RecordAt(row: Row, i: nat): Option<PatternRecord>
    requires i < |row|
  {
    if IsPatternName(row[i].text) && i + 1 < |row| then
      var ingredientsText := row[i + 1].text;
      if ingredientsText != "" && !IsPatternName(ingredientsText) then
        var ingredients := SplitIngredients(ingredientsText);
        if |ingredients| > 0 then Some(PatternRecord(ingredients, map[], map[])) else None
      else None
    else None
  }

  /** The record of every cell of `row` */
  function CellRecords(row: Row): (recs: seq<Option<PatternRecord>>)
    ensures |recs| == |row|
    ensures forall i :: 0 <= i < |row| ==> recs[i] == RecordAt(row, i)
  {
    seq(|row|, i requires 0 <= i < |row| => RecordAt(row, i))
  }

  /**
   * The map the pattern loop builds from cells 4 .. n - 1 when cell `i` yields `recs[i]`:
   * each record is stored under its cell's text, a later cell overwriting an earlier one.
   */
  function Scan(row: Row, recs: seq<Option<PatternRecord>>, n: nat): map<string, PatternRecord>
    requires n <= |row| == |recs|
  {
    if n <= 4 then map[]
    else
      var m := Scan(row, recs, n - 1);
      if recs[n - 1].Some? then m[row[n - 1].text := recs[n - 1].value] else m
  }

  /** The patterns stored by the pattern loop after it has scanned cells 4 .. n - 1 */
  function PatternsUpTo(row: Row, n: nat): map<string, PatternRecord>
    requires n <= |row|
  {
    Scan(row, CellRecords(row), n)
  }

  function Patterns(row: Row): map<string, PatternRecord> {
    PatternsUpTo(row, |row|)
  }

  /** The scan stores a record for `code` at cell `i` */
  predicate Records(row: Row, i: nat, code: string) {
    4 <= i < |row| && row[i].text == code && RecordAt(row, i).Some?
  }

  /** A record as the scanner stores it: some ingredients, each a non-empty trimmed name, no values */
  predicate WellFormedRecord(rec: PatternRecord) {
    && |rec.ingredients| > 0
    && (forall k :: 0 <= k < |rec.ingredients| ==> IsIngredientName(rec.ingredients[k]))
    && rec.values == map[]
    && rec.individualValues == map[]
  }

  /**
   * The scanner stores at cell `i` exactly when that cell is a pattern code, a next cell
   * exists, and its text is non-empty, not a code, and lists at least one ingredient.
   */
  lemma RecordsExactly(row: Row, i: nat, code: string)
    requires 4 <= i < |row|
    ensures Records(row, i, code) <==>
      && row[i].text == code && IsPatternName(code) && i + 1 < |row|
      && row[i + 1].text != "" && !IsPatternName(row[i + 1].text)
      && |SplitIngredients(row[i + 1].text)| > 0
    ensures Records(row, i, code) ==>
      RecordAt(row, i).value == PatternRecord(SplitIngredients(row[i + 1].text), map[], map[])
  {
  }

  /** A key is in the scanned map exactly when some scanned cell with that text yields a record. */
  lemma {:induction false} ScanKeys(row: Row, recs: seq<Option<PatternRecord>>, n: nat, code: string)
    requires n <= |row| == |recs|
    ensures code in Scan(row, recs, n) <==> exists i :: 4 <= i < n && row[i].text == code && recs[i].Some?
  {
    if n > 4 {
      ScanKeys(row, recs, n - 1, code);
      if exists i :: 4 <= i < n && row[i].text == code && recs[i].Some? {
        var i :| 4 <= i < n && row[i].text == code && recs[i].Some?;
        if i < n - 1 {
          assert code in Scan(row, recs, n - 1);
        }
      }
    }
  }

  /** The value under a key is the record of the last scanned cell with that text that yields one. */
  lemma {:induction false} ScanLast(row: Row, recs: seq<Option<PatternRecord>>, n: nat, code: string, i: nat)
    requires n <= |row| == |recs| && 4 <= i < n && row[i].text == code && recs[i].Some?
    requires forall j :: i < j < n ==> !(row[j].text == code && recs[j].Some?)
    ensures code in Scan(row, recs, n) && Scan(row, recs, n)[code] == recs[i].value
  {
    if i < n - 1 {
      ScanLast(row, recs, n - 1, code, i);
    }
  }

  /** Every key and value of the scanned map comes from a scanned cell. */
  lemma {:induction false} ScanFrom(row: Row, recs: seq<Option<PatternRecord>>, n: nat)
    requires n <= |row| == |recs|
    ensures forall code :: code in Scan(row, recs, n) ==>
      exists i :: 4 <= i < n && row[i].text == code && recs[i] == Some(Scan(row, recs, n)[code])
  {
    if n > 4 {
      ScanFrom(row, recs, n - 1);
      forall code | code in Scan(row, recs, n)
        ensures exists i :: 4 <= i < n && row[i].text == code && recs[i] == Some(Scan(row, recs, n)[code])
      {
        if recs[n - 1].Some? && row[n - 1].text == code {
          assert recs[n - 1] == Some(Scan(row, recs, n)[code]);
        } else {
          assert code in Scan(row, recs, n - 1) && Scan(row, recs, n)[code] == Scan(row, recs, n - 1)[code];
          var i :| 4 <= i < n - 1 && row[i].text == code && recs[i] == Some(Scan(row, recs, n - 1)[code]);
        }
      }
    }
  }

  /** `code` is stored exactly when some cell in 4 .. n - 1 records it. */
  lemma PatternsUpToKeys(row: Row, n: nat, code: string)
    requires n <= |row|
    ensures code in PatternsUpTo(row, n) <==> exists i :: 4 <= i < n && Records(row, i, code)
  {
    var recs := CellRecords(row);
    ScanKeys(row, recs, n, code);
    forall i | 4 <= i < n ensures Records(row, i, code) <==> row[i].text == code && recs[i].Some? {
      assert recs[i] == RecordAt(row, i);
    }
  }

  /**
   * The stored record is the one of the LAST cell that records `code`: a later
   * occurrence of a code overwrites an earlier one.
   */
  lemma PatternsUpToLast(row: Row, n: nat, code: string, i: nat)
    requires n <= |row| && 4 <= i < n && Records(row, i, code)
    requires forall j :: i < j < n ==> !Records(row, j, code)
    ensures code in PatternsUpTo(row, n) && PatternsUpTo(row, n)[code] == RecordAt(row, i).value
  {
    var recs := CellRecords(row);
    forall j | i < j < n ensures !(row[j].text == code && recs[j].Some?) {
      assert !Records(row, j, code);
    }
    ScanLast(row, recs, n, code, i);
  }

  /** One step of the pattern loop: cell `i` stores its record, if any, under its text. */
  lemma PatternsUpToStep(row: Row, i: nat)
    requires 4 <= i < |row|
    ensures PatternsUpTo(row, i + 1) ==
      if RecordAt(row, i).Some? then PatternsUpTo(row, i)[row[i].text := RecordAt(row, i).value] else PatternsUpTo(row, i)
  {
    assert CellRecords(row)[i] == RecordAt(row, i);
  }

  /** A record stored at a cell is keyed by a pattern code and well formed. */
  lemma RecordAtWellFormed(row: Row, i: nat)
    requires i < |row| && RecordAt(row, i).Some?
    ensures IsPatternName(row[i].text) && WellFormedRecord(RecordAt(row, i).value)
  {
  }

  lemma PatternsUpToWellFormed(row: Row, n: nat)
    requires n <= |row|
    ensures forall code :: code in PatternsUpTo(row, n) ==>
      IsPatternName(code) && WellFormedRecord(PatternsUpTo(row, n)[code])
  {
    var recs := CellRecords(row);
    ScanFrom(row, recs, n);
    forall code | code in PatternsUpTo(row, n)
      ensures IsPatternName(code) && WellFormedRecord(PatternsUpTo(row, n)[code])
    {
      var i :| 4 <= i < n && row[i].text == code && recs[i] == Some(PatternsUpTo(row, n)[code]);
      RecordAtWellFormed(row, i);
    }
  }

  /** Every stored pattern has a code as key and a well-formed record. */
  lemma PatternsWellFormed(row: Row)
    ensures forall code :: code in Patterns(row) ==> IsPatternName(code) && WellFormedRecord(Patterns(row)[code])
  {
    PatternsUpToWellFormed(row, |row|);
  }

  // ---------------------------------------------------------------------------
  // parsePokemonRow

  /** What `parsePokemonRow` returns for `row` when it is given `id` */
  function DecodeRow(row: Row, id: nat, parse: NumberParser): Option<Entity> {
    if |row| < 3 || row[0].text == "" then None
    else if Patterns(row) == map[] then None
    else Some(Entity(id, row[0].text, Levels(row, parse), Patterns(row)))
  }

  /** A row fails to decode exactly when it is too short, unnamed, or records no pattern. */
  lemma DecodeRowFails(row: Row, id: nat, parse: NumberParser)
    ensures DecodeRow(row, id, parse).None? <==>
      |row| < 3 || row[0].text == "" || forall i :: 4 <= i < |row| ==> !Records(row, i, row[i].text)
  {
    if |row| >= 3 && row[0].text != "" {
      if Patterns(row) != map[] {
        var code :| code in Patterns(row);
        PatternsUpToKeys(row, |row|, code);
      } else {
        forall i | 4 <= i < |row| ensures !Records(row, i, row[i].text) {
          PatternsUpToKeys(row, |row|, row[i].text);
        }
      }
    }
  }

  /** A decoded entity carries the id it was given, the row's name and well-formed, non-empty patterns. */
  lemma DecodeRowEntity(row: Row, id: nat, parse: NumberParser)
    requires DecodeRow(row, id, parse).Some?
    ensures var e := DecodeRow(row, id, parse).value;
      && e.id == id && e.name == row[0].text && e.name != ""
      && e.ingredientPatterns != map[]
      && forall code :: code in e.ingredientPatterns ==> IsPatternName(code) && WellFormedRecord(e.ingredientPatterns[code])
  {
    PatternsWellFormed(row);
  }

  method ParsePokemonRow(row: Row, id: nat, parse: NumberParser) returns (pokemon: Option<Entity>)
    ensures pokemon == DecodeRow(row, id, parse)
  {
    if |row| < 3 {
      return None;
    }
    var name := row[0].text;
    if name == "" {
      return None;
    }

    var levels: map<string, real> := map[];
    var bound := LevelBound(row);
    for i := 1 to bound
      invariant levels == LevelsUpTo(row, parse, i)
    {
      var value := parse(row[i].text);
      if value.Some? && value.value > 0.0 {
        var level := if i == 1 then "1" else if i == 2 then "30" else "60";
        levels := levels[level := value.value];
      }
    }

    var patterns: map<string, PatternRecord> := map[];
    if |row| > 4 {
      for i := 4 to |row|
        invariant patterns == PatternsUpTo(row, i)
      {
        PatternsUpToStep(row, i);
        var cellText := row[i].text;
        if IsPatternName(cellText) {
          if i + 1 < |row| {
            var ingredientsText := row[i + 1].text;
            if ingredientsText != "" && !IsPatternName(ingredientsText) {
              var ingredients := SplitIngredients(ingredientsText);
              if |ingredients| > 0 {
                patterns := patterns[cellText := PatternRecord(ingredients, map[], map[])];
              }
            }
          }
        }
      }
    }

    assert levels == Levels(row, parse);
    assert patterns == Patterns(row);
    if patterns != map[] {
      return Some(Entity(id, name, levels, patterns));
    }
    return None;
  }

  // ---------------------------------------------------------------------------
  // parseHTMLTable: row classification and the id counter

  predicate HasHeaderCell(row: Row) {
    exists k :: 0 <= k < |row| && row[k].isHeader
  }

  /** A row that reaches `parsePokemonRow`: it has cells, no `th`, and a first cell that is not a label */
  predicate IsCandidateRow(row: Row) {
    |row| > 0 && !HasHeaderCell(row) && row[0].text != "" && !Contains(row[0].text, "Lv.")
  }

  /** The entities decoded from `rows` in order, numbered from 1 */
  function DecodeRows(rows: seq<Row>, parse: NumberParser): seq<Entity>
    decreases |rows|
  {
    if rows == [] then []
    else
      var prev := DecodeRows(rows[..|rows| - 1], parse);
      var row := rows[|rows| - 1];
      if !IsCandidateRow(row) then prev
      else
        match DecodeRow(row, |prev| + 1, parse)
        case Some(e) => prev + [e]
        case None => prev
  }

  function CountCandidates(rows: seq<Row>): nat {
    |Filter(rows, IsCandidateRow)|
  }

  /**
   * The ids are 1, 2, ..., n in order; every entity is named by the non-empty, label-free
   * first cell of a candidate row and has well-formed, non-empty patterns.
   */
  lemma {:induction false} DecodeRowsWellFormed(rows: seq<Row>, parse: NumberParser)
    ensures forall k :: 0 <= k < |DecodeRows(rows, parse)| ==> DecodeRows(rows, parse)[k].id == k + 1
    ensures forall k :: 0 <= k < |DecodeRows(rows, parse)| ==>
      var e := DecodeRows(rows, parse)[k];
      && e.name != "" && !Contains(e.name, "Lv.")
      && e.ingredientPatterns != map[]
      && forall code :: code in e.ingredientPatterns ==> IsPatternName(code) && WellFormedRecord(e.ingredientPatterns[code])
    decreases |rows|
  {
    if rows != [] {
      var prev := DecodeRows(rows[..|rows| - 1], parse);
      DecodeRowsWellFormed(rows[..|rows| - 1], parse);
      var row := rows[|rows| - 1];
      if IsCandidateRow(row) && DecodeRow(row, |prev| + 1, parse).Some? {
        DecodeRowEntity(row, |prev| + 1, parse);
      }
    }
  }

  /** Entities of earlier rows come first: appending rows never changes what was decoded before. */
  lemma {:induction false} DecodeRowsPrefix(rows: seq<Row>, more: seq<Row>, parse: NumberParser)
    ensures DecodeRows(rows, parse) <= DecodeRows(rows + more, parse)
    decreases |more|
  {
    if more != [] {
      var init := more[..|more| - 1];
      DecodeRowsPrefix(rows, init, parse);
      assert (rows + more)[..|rows + more| - 1] == rows + init;
    } else {
      assert rows + more == rows;
    }
  }

  /** One more row: a candidate row that decodes adds its entity, numbered next; any other row adds nothing. */
  lemma DecodeRowsSnoc(rows: seq<Row>, row: Row, parse: NumberParser)
    ensures var prev := DecodeRows(rows, parse);
      DecodeRows(rows + [row], parse) ==
        if IsCandidateRow(row) && DecodeRow(row, |prev| + 1, parse).Some? then prev + [DecodeRow(row, |prev| + 1, parse).value]
        else prev
  {
    assert (rows + [row])[..|rows + [row]| - 1] == rows;
  }

  /** One more row adds one candidate exactly when it is a candidate row. */
  lemma CountCandidatesSnoc(rows: seq<Row>, row: Row)
    ensures CountCandidates(rows + [row]) == CountCandidates(rows) + if IsCandidateRow(row) then 1 else 0
  {
    FilterAppend(rows, [row], IsCandidateRow);
    assert Filter([row], IsCandidateRow) == if IsCandidateRow(row) then [row] else [];
  }

  /** Empty rows, header rows and label rows have no effect at all, not even on the ids. */
  lemma {:induction false} DecodeRowsOnlyCandidates(rows: seq<Row>, parse: NumberParser)
    ensures DecodeRows(rows, parse) == DecodeRows(Filter(rows, IsCandidateRow), parse)
    decreases |rows|
  {
    if rows != [] {
      var init := rows[..|rows| - 1];
      var row := rows[|rows| - 1];
      DecodeRowsOnlyCandidates(init, parse);
      assert rows == init + [row];
      DecodeRowsSnoc(init, row, parse);
      FilterAppend(init, [row], IsCandidateRow);
      var fi := Filter(init, IsCandidateRow);
      if IsCandidateRow(row) {
        assert Filter(rows, IsCandidateRow) == fi + [row];
        DecodeRowsSnoc(fi, row, parse);
      } else {
        assert Filter(rows, IsCandidateRow) == fi;
      }
    }
  }

  /** At most one entity per candidate row. */
  lemma {:induction false} DecodeRowsCount(rows: seq<Row>, parse: NumberParser)
    ensures |DecodeRows(rows, parse)| <= CountCandidates(rows)
    decreases |rows|
  {
    if rows != [] {
      var init := rows[..|rows| - 1];
      var row := rows[|rows| - 1];
      DecodeRowsCount(init, parse);
      assert rows == init + [row];
      DecodeRowsSnoc(init, row, parse);
      CountCandidatesSnoc(init, row);
    }
  }

  /**
   * The state of the row loop after the rows `done`: the entities they decode, the next id,
   * and the success and failure counts, which together count the candidate rows
   */
  predicate LoopState(done: seq<Row>, parse: NumberParser, pokemonList: seq<Entity>, pokemonId: nat,
                      successfulParses: nat, failedParses: nat) {
    && pokemonList == DecodeRows(done, parse) && pokemonId == |pokemonList| + 1
    && successfulParses == |pokemonList| && successfulParses + failedParses == CountCandidates(done)
  }

  /**
   * The callback `rows.each` runs on one row: a candidate row goes to `parsePokemonRow`
   * with the next id; a decoded entity is appended and counted as a success, a row that
   * does not decode counts as a failure; any other row changes nothing. When the state
   * is the one the rows `done` leave, the new state is the one `done + [row]` leaves.
   */
  method VisitRow(row: Row, parse: NumberParser, ghost done: seq<Row>,
                  pokemonList: seq<Entity>, pokemonId: nat, successfulParses: nat, failedParses: nat)
    returns (list: seq<Entity>, id: nat, successes: nat, failures: nat)
    requires LoopState(done, parse, pokemonList, pokemonId, successfulParses, failedParses)
    ensures list == if IsCandidateRow(row) && DecodeRow(row, pokemonId, parse).Some?
      then pokemonList + [DecodeRow(row, pokemonId, parse).value] else pokemonList
    ensures id == pokemonId + |list| - |pokemonList| && successes == successfulParses + |list| - |pokemonList|
    ensures successes + failures == successfulParses + failedParses + if IsCandidateRow(row) then 1 else 0
    ensures LoopState(done + [row], parse, list, id, successes, failures)
  {
    DecodeRowsSnoc(done, row, parse);
    CountCandidatesSnoc(done, row);
    list, id, successes, failures := pokemonList, pokemonId, successfulParses, failedParses;
    if |row| == 0 {
      return;
    }
    if HasHeaderCell(row) {
      return;
    }
    var firstCell := row[0].text;
    if firstCell != "" && !Contains(firstCell, "Lv.") {
      var pokemon := ParsePokemonRow(row, pokemonId, parse);
      if pokemon.Some? {
        list := pokemonList + [pokemon.value];
        id := pokemonId + 1;
        successes := successfulParses + 1;
      } else {
        failures := failedParses + 1;
      }
    }
  }

  /** The loop over the rows of the main table, with its success and failure counters */
  method DecodeTable(rows: Table, parse: NumberParser) returns (pokemonList: seq<Entity>, successfulParses: nat, failedParses: nat)
    ensures pokemonList == DecodeRows(rows, parse)
    ensures successfulParses == |pokemonList|
    ensures successfulParses + failedParses == CountCandidates(rows)
  {
    pokemonList := [];
    var pokemonId := 1;
    successfulParses, failedParses := 0, 0;
    for rowIndex := 0 to |rows|
      invariant LoopState(rows[..rowIndex], parse, pokemonList, pokemonId, successfulParses, failedParses)
    {
      var row := rows[rowIndex];
      assert rows[..rowIndex + 1] == rows[..rowIndex] + [row];
      pokemonList, pokemonId, successfulParses, failedParses :=
        VisitRow(row, parse, rows[..rowIndex], pokemonList, pokemonId, successfulParses, failedParses);
    }
    assert rows[..|rows|] == rows;
  }

  // ---------------------------------------------------------------------------
  // parseHTMLTable: table selection and fallback

  /** Table `k` is the first of the tables with the greatest row count, and that count is positive */
  predicate IsMainTable(tables: seq<Table>, k: nat) {
    && k < |tables| && |tables[k]| > 0
    && (forall t :: 0 <= t < |tables| ==> |tables[t]| <= |tables[k]|)
    && (forall t :: 0 <= t < k ==> |tables[t]| < |tables[k]|)
  }

  /** There is at most one main table. */
  lemma MainTableUnique(tables: seq<Table>, k: nat, k': nat)
    requires IsMainTable(tables, k) && IsMainTable(tables, k')
    ensures k == k'
  {
  }

  /** The loop that keeps the table with the strictly greatest row count seen so far */
  method SelectMainTable(tables: seq<Table>) returns (mainTable: Option<nat>, maxRows: nat)
    ensures mainTable.None? <==> forall t :: 0 <= t < |tables| ==> |tables[t]| == 0
    ensures mainTable.None? ==> maxRows == 0
    ensures mainTable.Some? ==> IsMainTable(tables, mainTable.value) && maxRows == |tables[mainTable.value]|
  {
    mainTable, maxRows := None, 0;
    for i := 0 to |tables|
      invariant mainTable.None? <==> forall t :: 0 <= t < i ==> |tables[t]| == 0
      invariant mainTable.None? ==> maxRows == 0
      invariant mainTable.Some? ==> mainTable.value < i && maxRows == |tables[mainTable.value]| > 0
      invariant forall t :: 0 <= t < i ==> |tables[t]| <= maxRows
      invariant mainTable.Some? ==> forall t :: 0 <= t < mainTable.value ==> |tables[t]| < maxRows
    {
      var rows := |tables[i]|;
      if rows > maxRows {
        maxRows := rows;
        mainTable := Some(i);
      }
    }
  }

  /** The decoded entities, or the sample data when there are none */
  function WithFallback(decoded: seq<Entity>): seq<Entity> {
    if decoded == [] then SampleData() else decoded
  }

  /**
   * `parseHTMLTable`: the sample data when there is no table or every table is empty;
   * otherwise the entities of the main table, or the sample data when it yields none.
   * Either way the result is non-empty, numbered 1 .. n, and every entity has patterns.
   */
  method ParseHTMLTable(tables: seq<Table>, parse: NumberParser) returns (pokemonList: seq<Entity>)
    ensures |tables| == 0 ==> pokemonList == SampleData()
    ensures (forall t :: 0 <= t < |tables| ==> |tables[t]| == 0) ==> pokemonList == SampleData()
    ensures (exists t :: 0 <= t < |tables| && |tables[t]| > 0) ==> exists k: nat :: IsMainTable(tables, k)
    ensures forall k: nat :: IsMainTable(tables, k) ==> pokemonList == WithFallback(DecodeRows(tables[k], parse))
    ensures |pokemonList| > 0
    ensures forall k :: 0 <= k < |pokemonList| ==> pokemonList[k].id == k + 1
    ensures forall k :: 0 <= k < |pokemonList| ==> pokemonList[k].ingredientPatterns != map[]
  {
    if |tables| == 0 {
      return SampleData();
    }
    var mainTable, maxRows := SelectMainTable(tables);
    if mainTable.None? {
      return SampleData();
    }
    var rows := tables[mainTable.value];
    forall k: nat | IsMainTable(tables, k) ensures k == mainTable.value {
      MainTableUnique(tables, k, mainTable.value);
    }
    var decoded, successfulParses, failedParses := DecodeTable(rows, parse);
    if |decoded| == 0 {
      return SampleData();
    }
    DecodeRowsWellFormed(rows, parse);
    return decoded;
  }

  // ---------------------------------------------------------------------------
  // extractUniqueIngredients

  /** The ingredients of the patterns `codes` of `patterns` */
  ghost function CodesIngredients(patterns: map<string, PatternRecord>, codes: set<string>): set<string> {
    set code, x | code in codes && code in patterns && x in patterns[code].ingredients :: x
  }

  /** The ingredients of all patterns of all entities of `data` */
  ghost function AllIngredients(data: seq<Entity>): set<string>
    decreases |data|
  {
    if data == [] then {}
    else
      var e := data[|data| - 1];
      AllIngredients(data[..|data| - 1]) + CodesIngredients(e.ingredientPatterns, e.ingredientPatterns.Keys)
  }

  lemma {:induction false} AllIngredientsOccur(data: seq<Entity>)
    ensures forall x :: x in AllIngredients(data) <==> OccursAsIngredient(data, x)
    decreases |data|
  {
    if data != [] {
      var init := data[..|data| - 1];
      AllIngredientsOccur(init);
      forall x ensures x in AllIngredients(data) <==> OccursAsIngredient(data, x) {
        if OccursAsIngredient(data, x) {
          var i, code :| 0 <= i < |data| && code in data[i].ingredientPatterns &&
            x in data[i].ingredientPatterns[code].ingredients;
          if i < |data| - 1 {
            assert data[i] == init[i];
            assert OccursAsIngredient(init, x);
          }
        }
        if x in AllIngredients(init) {
          var i, code :| 0 <= i < |init| && code in init[i].ingredientPatterns &&
            x in init[i].ingredientPatterns[code].ingredients;
          assert data[i] == init[i];
        }
      }
    }
  }

  lemma CodesIngredientsAdd(patterns: map<string, PatternRecord>, codes: set<string>, code: string)
    requires code in patterns
    ensures CodesIngredients(patterns, codes + {code}) ==
      CodesIngredients(patterns, codes) + set k | 0 <= k < |patterns[code].ingredients| :: patterns[code].ingredients[k]
  {
    var ingredients := patterns[code].ingredients;
    var listed := set k | 0 <= k < |ingredients| :: ingredients[k];
    forall x | x in CodesIngredients(patterns, codes + {code})
      ensures x in CodesIngredients(patterns, codes) + listed
    {
      var c :| c in codes + {code} && c in patterns && x in patterns[c].ingredients;
      if c != code {
        assert x in CodesIngredients(patterns, codes);
      } else {
        var k :| 0 <= k < |ingredients| && ingredients[k] == x;
        assert x in listed;
      }
    }
    forall x | x in CodesIngredients(patterns, codes) + listed
      ensures x in CodesIngredients(patterns, codes + {code})
    {
      if x in CodesIngredients(patterns, codes) {
        var c :| c in codes && c in patterns && x in patterns[c].ingredients;
        assert c in codes + {code};
      } else {
        var k :| 0 <= k < |ingredients| && ingredients[k] == x;
        assert x in patterns[code].ingredients;
      }
    }
  }

  /** `pattern.ingredients.forEach(ingredient => ingredientSet.add(ingredient))` */
  method AddIngredients(ingredientSet: set<string>, list: seq<string>) returns (result: set<string>)
    ensures result == ingredientSet + set k | 0 <= k < |list| :: list[k]
  {
    result := ingredientSet;
    for j := 0 to |list|
      invariant result == ingredientSet + set k | 0 <= k < j :: list[k]
    {
      result := result + {list[j]};
    }
  }

  /** `Object.values(patterns).forEach(...)`: add the ingredients of every pattern */
  method AddPatternIngredients(ingredientSet: set<string>, patterns: map<string, PatternRecord>) returns (result: set<string>)
    ensures result == ingredientSet + CodesIngredients(patterns, patterns.Keys)
  {
    result := ingredientSet;
    var todo := patterns.Keys;
    while todo != {}
      invariant todo <= patterns.Keys
      invariant result == ingredientSet + CodesIngredients(patterns, patterns.Keys - todo)
      decreases |todo|
    {
      var code :| code in todo;
      result := AddIngredients(result, patterns[code].ingredients);
      CodesIngredientsAdd(patterns, patterns.Keys - todo, code);
      assert patterns.Keys - (todo - {code}) == (patterns.Keys - todo) + {code};
      todo := todo - {code};
    }
  }

  /** The sorted list of every ingredient of every pattern of every entity, each once */
  method ExtractUniqueIngredients(data: seq<Entity>) returns (ingredients: seq<string>)
    ensures StrictlySorted(ingredients)
    ensures forall x :: x in ingredients <==> OccursAsIngredient(data, x)
  {
    var ingredientSet: set<string> := {};
    for i := 0 to |data|
      invariant ingredientSet == AllIngredients(data[..i])
    {
      ingredientSet := AddPatternIngredients(ingredientSet, data[i].ingredientPatterns);
      assert data[..i + 1][..i] == data[..i];
    }
    assert data[..|data|] == data;
    AllIngredientsOccur(data);
    ingredients := SortedSeq(ingredientSet);
  }
}
