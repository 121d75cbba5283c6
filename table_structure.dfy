/**
 * The table structure analyser of `scripts/analyze-table-structure.js`: the catalog of
 * column groups of a fully populated wiki row, the cell ranges it prints for them, the
 * per-cell image-alt and link-text fallbacks, and the sampling of the first body rows.
 */
module TableStructure {
  import opened Wrappers
  import opened Strings

  /** A column group: its name, its first cell and its number of cells */
  datatype CatalogEntry = CatalogEntry(name: string, start: nat, cells: nat)

  /** The column groups, in row order */
  const Catalog: seq<CatalogEntry> := [
    CatalogEntry("Lv1", 2, 2),
    CatalogEntry("Lv30-AA", 4, 2),
    CatalogEntry("Lv30-AB", 6, 4),
    CatalogEntry("Lv60-AAA", 10, 2),
    CatalogEntry("Lv60-AAB", 12, 4),
    CatalogEntry("Lv60-AAC", 16, 4),
    CatalogEntry("Lv60-ABA", 20, 4),
    CatalogEntry("Lv60-ABB", 24, 4),
    CatalogEntry("Lv60-ABC", 28, 6)
  ]

  /** Each group starts where the previous one ends */
  predicate Contiguous(entries: seq<CatalogEntry>) {
    forall k :: 0 < k < |entries| ==> entries[k].start == entries[k - 1].start + entries[k - 1].cells
  }

  /** The cell after the last group */
  function End(entries: seq<CatalogEntry>): nat
    requires |entries| > 0
  {
    entries[|entries| - 1].start + entries[|entries| - 1].cells
  }

  predicate InGroup(e: CatalogEntry, cell: int) {
    e.start <= cell < e.start + e.cells
  }

  /**
   * The groups are contiguous, start at cell 2 and end at cell 33, so a fully populated
   * row has 34 cells; every group is a whole number of icon/value pairs.
   */
  lemma CatalogShape()
    ensures Contiguous(Catalog)
    ensures Catalog[0].start == 2 && End(Catalog) - 1 == 33
    ensures forall k :: 0 <= k < |Catalog| ==> Catalog[k].cells in {2, 4, 6}
  {
  }

  /** In contiguous groups of positive width, every cell between the first and the end is in exactly one group. */
  lemma {:induction false} ContiguousCovers(entries: seq<CatalogEntry>, cell: int)
    requires |entries| > 0 && Contiguous(entries)
    requires forall k :: 0 <= k < |entries| ==> entries[k].cells > 0
    requires entries[0].start <= cell < End(entries)
    ensures exists k :: 0 <= k < |entries| && InGroup(entries[k], cell)
    ensures forall k, k' ::
      0 <= k < |entries| && 0 <= k' < |entries| && InGroup(entries[k], cell) && InGroup(entries[k'], cell) ==> k == k'
  {
    var last := |entries| - 1;
    if cell >= entries[last].start {
      assert InGroup(entries[last], cell);
    } else {
      var init := entries[..last];
      assert End(init) == entries[last].start;
      ContiguousCovers(init, cell);
      var k :| 0 <= k < |init| && InGroup(init[k], cell);
      assert InGroup(entries[k], cell);
    }
    ContiguousOrdered(entries);
  }

  /** Later groups of contiguous groups lie wholly after earlier ones. */
  lemma {:induction false} ContiguousOrdered(entries: seq<CatalogEntry>)
    requires Contiguous(entries)
    ensures forall k, k' :: 0 <= k < k' < |entries| ==> entries[k].start + entries[k].cells <= entries[k'].start
    decreases |entries|
  {
    if |entries| > 1 {
      var init := entries[..|entries| - 1];
      ContiguousOrdered(init);
      forall k, k' | 0 <= k < k' < |entries|
        ensures entries[k].start + entries[k].cells <= entries[k'].start
      {
        if k' < |entries| - 1 {
          assert entries[k] == init[k] && entries[k'] == init[k'];
        } else if k < k' - 1 {
          assert entries[k] == init[k] && entries[k' - 1] == init[k' - 1];
          assert entries[k].start + entries[k].cells <= entries[k' - 1].start;
        }
      }
    }
  }

  /** Every cell 2 .. 33 of a row belongs to exactly one column group. */
  lemma CatalogCoversRow(cell: int)
    requires 2 <= cell <= 33
    ensures exists k :: 0 <= k < |Catalog| && InGroup(Catalog[k], cell)
    ensures forall k, k' ::
      0 <= k < |Catalog| && 0 <= k' < |Catalog| && InGroup(Catalog[k], cell) && InGroup(Catalog[k'], cell) ==> k == k'
  {
    CatalogShape();
    ContiguousCovers(Catalog, cell);
  }

  // ---------------------------------------------------------------------------
  // The printed ranges

  /** `${name}: cells ${start}-${start + cells - 1}` */
  datatype RangeLine = RangeLine(name: string, first: int, last: int)

  function PrintedRange(e: CatalogEntry): (line: RangeLine)
    ensures line.name == e.name && line.first == e.start && line.last - line.first + 1 == e.cells
  {
    RangeLine(e.name, e.start, e.start + e.cells - 1)
  }

  /** The lines printed for `entries`, in their order */
  function PrintedRanges(entries: seq<CatalogEntry>): (lines: seq<RangeLine>)
    ensures |lines| == |entries|
    ensures forall k :: 0 <= k < |lines| ==> lines[k] == PrintedRange(entries[k])
  {
    if entries == [] then [] else [PrintedRange(entries[0])] + PrintedRanges(entries[1..])
  }

  /** The ranges printed for contiguous groups follow one another without a gap. */
  lemma PrintedRangesContiguous(entries: seq<CatalogEntry>)
    requires Contiguous(entries)
    ensures var lines := PrintedRanges(entries);
      forall k :: 0 < k < |lines| ==> lines[k].first == lines[k - 1].last + 1
  {
    var lines := PrintedRanges(entries);
    forall k | 0 < k < |lines| ensures lines[k].first == lines[k - 1].last + 1 {
      assert lines[k] == PrintedRange(entries[k]) && lines[k - 1] == PrintedRange(entries[k - 1]);
    }
  }

  /**
   * The ranges printed for contiguous groups run from the first group's start to the cell
   * before `End`, without a gap, one line per group under its name.
   */
  lemma PrintedRangesSpan(entries: seq<CatalogEntry>)
    requires Contiguous(entries) && |entries| > 0
    ensures var lines := PrintedRanges(entries);
      && (forall k :: 0 < k < |lines| ==> lines[k].first == lines[k - 1].last + 1)
      && lines[0].first == entries[0].start && lines[|lines| - 1].last == End(entries) - 1
      && (forall k :: 0 <= k < |lines| ==> lines[k].name == entries[k].name)
  {
    PrintedRangesContiguous(entries);
    var lines := PrintedRanges(entries);
    assert lines[|lines| - 1] == PrintedRange(entries[|entries| - 1]);
  }

  /** Each printed range starts one cell after the previous one ends; together they run from 2 to 33. */
  lemma PrintedRangesOfCatalog()
    ensures var lines := PrintedRanges(Catalog);
      && (forall k :: 0 < k < |lines| ==> lines[k].first == lines[k - 1].last + 1)
      && lines[0].first == 2 && lines[|lines| - 1].last == 33
      && (forall k :: 0 <= k < |lines| ==> lines[k].name == Catalog[k].name)
  {
    CatalogShape();
    PrintedRangesSpan(Catalog);
  }

  // ---------------------------------------------------------------------------
  // The cells of a sampled row

  /**
   * A data cell: its trimmed text, the `alt` attribute of each image in it (absent
   * attributes are `None`) and the text of each link in it.
   */
  datatype DataCell = DataCell(text: string, imageAlts: seq<Option<string>>, linkTexts: seq<string>)

  /** `img.length > 0 ? img.attr('alt') : ''`: the first image's alt, '' without images */
  function ImgAlt(cell: DataCell): (r: Option<string>)
    ensures |cell.imageAlts| == 0 ==> r == Some("")
    ensures |cell.imageAlts| > 0 ==> r == cell.imageAlts[0]
  {
    if |cell.imageAlts| > 0 then cell.imageAlts[0] else Some("")
  }

  function Concat(pieces: seq<string>): string {
    if pieces == [] then "" else pieces[0] + Concat(pieces[1..])
  }

  /** `link.length > 0 ? link.text().trim() : ''`: the links' texts joined and trimmed, '' without links */
  function LinkText(cell: DataCell): (r: string)
    ensures |cell.linkTexts| == 0 ==> r == ""
    ensures Trimmed(r)
  {
    if |cell.linkTexts| > 0 then Trim(Concat(cell.linkTexts)) else ""
  }

  /** The one link's text, trimmed, when there is exactly one link */
  lemma LinkTextSingle(cell: DataCell)
    requires |cell.linkTexts| == 1
    ensures LinkText(cell) == Trim(cell.linkTexts[0])
  {
    assert Concat(cell.linkTexts) == cell.linkTexts[0] + "";
    assert cell.linkTexts[0] + "" == cell.linkTexts[0];
  }

  /**
   * With links, the link text is the links' texts joined, less the white space `trim`
   * removes at either end: white space, then the result, then white space.
   */
  lemma LinkTextMargins(cell: DataCell)
    requires |cell.linkTexts| > 0
    ensures var c := Concat(cell.linkTexts); var r := LinkText(cell); var i := SkipWhitespace(c, 0);
      && i + |r| <= |c| && r == c[i..i + |r|]
      && (forall j {:trigger IsWhitespace(c[j])} :: 0 <= j < i ==> IsWhitespace(c[j]))
      && (forall j {:trigger IsWhitespace(c[j])} :: i + |r| <= j < |c| ==> IsWhitespace(c[j]))
  {
    TrimMargins(Concat(cell.linkTexts));
  }

  /** `tbody tr`.slice(0, 3): at most the first three body rows */
  function SampleRows<R>(rows: seq<R>): (r: seq<R>)
    ensures |r| == if |rows| < 3 then |rows| else 3
    ensures r <= rows
  {
    if |rows| < 3 then rows else rows[..3]
  }
}
