/**
 * The spreadsheet editor's grid: a sequence of rows of string cells, opened
 * from a book's stored content, edited one cell, one row or one column at a
 * time (each edit builds a new grid), and saved back as JSON text.
 */
module Grid {
  import opened Wrappers
  import opened Json

  type Row = seq<string>
  type Grid = seq<Row>

  /** Shape of the grid a spreadsheet opens with when its content is not a usable grid. */
  const DefaultRows: nat := 10
  const DefaultCols: nat := 5

  /** A UTF-16 code unit, what `String.fromCharCode` produces. */
  type CodeUnit = n: int | 0 <= n < 0x1_0000

  function Blank(n: nat): (r: Row)
    ensures |r| == n && forall k :: 0 <= k < n ==> r[k] == ""
  {
    seq(n, _ => "")
  }

  function DefaultGrid(): (g: Grid)
    ensures |g| == DefaultRows && forall i :: 0 <= i < |g| ==> g[i] == Blank(DefaultCols)
  {
    seq(DefaultRows, _ => Blank(DefaultCols))
  }

  /** Every row has the same length. */
  ghost predicate Rectangular(g: Grid) {
    forall i, j :: 0 <= i < |g| && 0 <= j < |g| ==> |g[i]| == |g[j]|
  }

  /** The number of columns the header shows: the length of the first row. */
  function Width(g: Grid): nat {
    if g == [] then 0 else |g[0]|
  }

  // ---------------------------------------------------------------- JSON form

  function RowToJson(row: Row): Json {
    JArr(seq(|row|, k requires 0 <= k < |row| => JStr(row[k])))
  }

  function ToJson(g: Grid): Json {
    JArr(seq(|g|, i requires 0 <= i < |g| => RowToJson(g[i])))
  }

  predicate IsStringArray(j: Json) {
    j.JArr? && forall k :: 0 <= k < |j.items| ==> j.items[k].JStr?
  }

  /** The grid a parsed value denotes, when it is an array of arrays of strings. */
  function FromJson(j: Json): (r: Option<Grid>)
    ensures r.Some? ==> ToJson(r.value) == j
  {
    if j.JArr? && forall i :: 0 <= i < |j.items| ==> IsStringArray(j.items[i]) then
      var g := seq(|j.items|, i requires 0 <= i < |j.items| =>
                   seq(|j.items[i].items|, k requires 0 <= k < |j.items[i].items| => j.items[i].items[k].s));
      assert forall i :: 0 <= i < |g| ==> RowToJson(g[i]) == j.items[i] by {
        forall i | 0 <= i < |g| ensures RowToJson(g[i]) == j.items[i] {
          assert RowToJson(g[i]).items == j.items[i].items;
        }
      }
      assert ToJson(g).items == j.items;
      Some(g)
    else None
  }

  lemma {:induction false} FromToJson(g: Grid)
    ensures FromJson(ToJson(g)) == Some(g)
  {
    var j := ToJson(g);
    forall i | 0 <= i < |g| ensures IsStringArray(j.items[i]) {
      assert j.items[i] == RowToJson(g[i]);
    }
    var r := FromJson(j).value;
    assert |r| == |g|;
    forall i | 0 <= i < |g| ensures r[i] == g[i] {
      assert j.items[i] == RowToJson(g[i]);
      assert |r[i]| == |g[i]|;
      forall k | 0 <= k < |g[i]| ensures r[i][k] == g[i][k] {
        assert j.items[i].items[k] == JStr(g[i][k]);
      }
    }
    assert r == g;
  }

  // ---------------------------------------------------------------- operations

  /** The text `save` sends as the book's new content: `JSON.stringify(grid)`. */
  function Save(g: Grid): (text: string)
    ensures |text| >= 2 && text[0] == '[' && text[|text| - 1] == ']'
  {
    var inner := Join(Encodings(ToJson(g).items));
    assert Encode(ToJson(g)) == "[" + inner + "]";
    Encode(ToJson(g))
  }

  /** What the editor parses the stored content as; `None` where `JSON.parse` throws. */
  function Parsed(content: Option<string>): (p: Option<Json>)
    ensures content.None? || content.value == "" ==> p == Some(JNull)
    ensures p.Some? && !p.value.JNull? ==> content.Some? && Parse(content.value) == p
  {
    // a null or empty content is not parsed at all: it stands for `null`
    if content.None? || content.value == "" then Some(JNull) else Parse(content.value)
  }

  /** A parsed value the editor takes as its grid: a non-empty array whose first item is an array. */
  predicate UsableGrid(p: Option<Json>) {
    p.Some? && p.value.JArr? && |p.value.items| > 0 && p.value.items[0].JArr?
  }

  /** The grid the editor opens with, given the book's stored content. */
  function Load(content: Option<string>): (g: Grid)
    ensures |g| > 0
    ensures !UsableGrid(Parsed(content)) ==> g == DefaultGrid()
    ensures g == DefaultGrid() || Parsed(content) == Some(ToJson(g))
  {
    var p := Parsed(content);
    if UsableGrid(p) && FromJson(p.value).Some? then FromJson(p.value).value else DefaultGrid()
  }

  /** `handleCellChange`: the cell at (`row`, `col`) becomes `v`. */
  function SetCell(g: Grid, row: int, col: int, v: string): (r: Grid)
    ensures |r| == |g| && forall i :: 0 <= i < |g| ==> |r[i]| == |g[i]|
    ensures forall i, k :: 0 <= i < |g| && 0 <= k < |g[i]| ==>
              r[i][k] == if i == row && k == col then v else g[i][k]
    ensures !(0 <= row < |g| && 0 <= col < |g[row]|) ==> r == g
    ensures Rectangular(g) ==> Rectangular(r)
  {
    var r := seq(|g|, i requires 0 <= i < |g| =>
                 if i == row then seq(|g[i]|, k requires 0 <= k < |g[i]| => if k == col then v else g[i][k])
                 else g[i]);
    assert !(0 <= row < |g| && 0 <= col < |g[row]|) ==> r == g by {
      if !(0 <= row < |g| && 0 <= col < |g[row]|) {
        forall i | 0 <= i < |g| ensures r[i] == g[i] {
        }
      }
    }
    r
  }

  /** `addRow`: a blank row as long as the first row, or of 5 cells when there is none or it is empty. */
  function AddRow(g: Grid): (r: Grid)
    ensures |r| == |g| + 1 && r[..|g|] == g
    ensures r[|g|] == Blank(if g != [] && |g[0]| > 0 then |g[0]| else DefaultCols)
  {
    var cols := if g != [] && |g[0]| > 0 then |g[0]| else DefaultCols;
    g + [Blank(cols)]
  }

  /** `addColumn`: one blank cell at the end of every row. */
  function AddColumn(g: Grid): (r: Grid)
    ensures |r| == |g| && forall i :: 0 <= i < |g| ==> r[i] == g[i] + [""]
    ensures Rectangular(g) ==> Rectangular(r)
    ensures g != [] ==> Width(r) == Width(g) + 1
  {
    seq(|g|, i requires 0 <= i < |g| => g[i] + [""])
  }

  /** The header row: one label per cell of the first row, `String.fromCharCode(65 + i)` for column i. */
  function ColumnLabels(g: Grid): (labels: seq<CodeUnit>)
    ensures |labels| == Width(g)
    ensures forall i :: 0 <= i < |labels| ==> labels[i] == (65 + i) % 0x1_0000
  {
    seq(Width(g), i => (65 + i) % 0x1_0000)
  }

  // ---------------------------------------------------------------- properties

  /** Reopening what `save` wrote gives back the same grid, for any non-empty grid. */
  lemma {:induction false} LoadSave(g: Grid)
    requires |g| > 0
    ensures Load(Some(Save(g))) == g
  {
    ParseEncode(ToJson(g));
    LoadUsesParsedGrid(Some(Save(g)), g);
  }

  /**
   * Content that parses to the JSON form of a non-empty grid, whitespace or
   * escapes included, opens as exactly that grid.
   */
  lemma {:induction false} LoadUsesParsedGrid(content: Option<string>, h: Grid)
    requires |h| > 0 && Parsed(content) == Some(ToJson(h))
    ensures Load(content) == h
  {
    FromToJson(h);
    assert ToJson(h).items[0] == RowToJson(h[0]);
  }

  /** An empty grid saves as `[]`, which reopens as the default grid and not as the empty one. */
  lemma {:induction false} LoadSaveEmpty()
    ensures Save([]) == "[]"
    ensures Load(Some(Save([]))) == DefaultGrid()
  {
    EmptyGridText();
    assert Parse("[]") == Some(JArr([])) by {
      EmptyGridText();
      ParseEncode(JArr([]));
    }
  }

  lemma {:induction false} EmptyGridText()
    ensures Save([]) == "[]" && Encode(JArr([])) == "[]"
  {
    assert ToJson([]) == JArr([]);
    EmptyArrayText();
  }

  lemma {:induction false} EmptyArrayText()
    ensures Encode(JArr([])) == "[]"
  {
    assert Encodings([]) == [];
  }

  /** A new spreadsheet book stores `[]`; it opens as a 10 by 5 grid of empty cells. */
  lemma {:induction false} NewSpreadsheetOpensDefault()
    ensures Load(Some("[]")) == DefaultGrid()
    ensures |Load(Some("[]"))| == 10 && forall i :: 0 <= i < 10 ==> Load(Some("[]"))[i] == ["", "", "", "", ""]
  {
    LoadSaveEmpty();
  }

  /** A rectangular grid at least one column wide stays rectangular when a row is added. */
  lemma {:induction false} AddRowKeepsRectangular(g: Grid)
    requires Rectangular(g) && (g == [] || Width(g) >= 1)
    ensures Rectangular(AddRow(g))
    ensures Width(AddRow(g)) == if g == [] then DefaultCols else Width(g)
  {
    var r := AddRow(g);
    forall i | 0 <= i < |r| ensures |r[i]| == |r[0]| {
      if i < |g| {
        assert r[i] == g[i];
      }
    }
  }

  /** Rows of width 0 (content `[[]]`, say) make `addRow` append a 5-cell row: the grid becomes ragged. */
  lemma {:induction false} AddRowToZeroWidthIsRagged(g: Grid)
    requires g != [] && Width(g) == 0
    ensures !Rectangular(AddRow(g))
  {
    var r := AddRow(g);
    assert r[0] == g[0] && |r[|g|]| == DefaultCols;
  }

  /** The header follows the grid's operations: a column adds one label, the others keep them. */
  lemma {:induction false} LabelsFollowEdits(g: Grid, row: int, col: int, v: string)
    requires g != []
    ensures ColumnLabels(AddColumn(g)) == ColumnLabels(g) + [(65 + Width(g)) % 0x1_0000]
    ensures ColumnLabels(SetCell(g, row, col, v)) == ColumnLabels(g)
    ensures ColumnLabels(AddRow(g)) == ColumnLabels(g)
  {
    assert AddRow(g)[0] == g[0];
  }

  /** The first 26 columns are labelled `A` to `Z`; the 27th gets `[`, the character after `Z`. */
  lemma {:induction false} LabelsAreLettersUpToZ(g: Grid)
    ensures forall i :: 0 <= i < |ColumnLabels(g)| && i < 26 ==> 'A' as int <= ColumnLabels(g)[i] <= 'Z' as int
    ensures |ColumnLabels(g)| > 26 ==> ColumnLabels(g)[26] == '[' as int
  {
  }
}
