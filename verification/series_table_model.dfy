/** `SeriesTableModel`: the table of graph lines shown while a graph is edited. Each row is
    one line; the first columns hold the parts of the line's name, one per series column,
    and the last three columns hold the line's colour, style and width, which the user can
    edit. */
module SeriesTableModel {
  import opened Wrappers
  import JavaText
  import GraphStyle
  import GraphLine
  import JavaNumber

  const ColourColumnName := "Colour"
  const LineTypeColumnName := "Line Type"
  const LineWidthColumnName := "Line Width"
  const BasicColumnsCount := 3

  /** The rows' lines, the name cells of each row, and the series of each name column (as
      the text the series shows). */
  datatype Table = Table(rows: seq<GraphLine.Line>, seriesNames: seq<seq<string>>, columns: seq<string>)

  /** A value read from or written to a cell: a colour (a null colour reference is `None`),
      a style, a width, or the text of a name cell. */
  datatype CellValue =
    | ColourValue(colour: Option<GraphStyle.GraphColour>)
    | StyleValue(style: GraphStyle.LineStyle)
    | WidthValue(width: int)
    | TextValue(text: string)

  /** The name cells of a line: its name split at every `/`. `Double.toString` is the
      parameter `showDouble`, as in `DataGrid.Name`. */
  function NameCells(l: GraphLine.Line, showDouble: JavaNumber.Dbl -> string): (r: seq<string>)
    ensures forall k :: 0 <= k < |r| ==> '/' !in r[k]
  {
    var r := JavaText.Split(GraphLine.GetName(l, showDouble), {'/'});
    assert forall k :: 0 <= k < |r| ==> JavaText.NoneIn(r[k], {'/'});
    r
  }

  /** Every row has its name cells stored next to it. */
  ghost predicate Aligned(t: Table, showDouble: JavaNumber.Dbl -> string) {
    |t.rows| == |t.seriesNames|
    && forall i :: 0 <= i < |t.rows| ==> t.seriesNames[i] == NameCells(t.rows[i], showDouble)
  }

  /** The empty table a new model starts with. */
  function NewTable(): (t: Table)
    ensures GetRowCount(t) == 0 && GetColumnCount(t) == BasicColumnsCount
    ensures forall showDouble: JavaNumber.Dbl -> string :: Aligned(t, showDouble)
  {
    Table([], [], [])
  }

  /** `getLine(i)`: the line of row `i`; any other index is out of bounds. */
  function GetLine(t: Table, i: int): (r: Result<GraphLine.Line>)
    ensures r.Success? <==> 0 <= i < |t.rows|
    ensures r.Success? ==> r.value == t.rows[i]
    ensures r.Failure? ==> r.error == "IndexOutOfBoundsException"
  {
    if 0 <= i < |t.rows| then Success(t.rows[i]) else Failure("IndexOutOfBoundsException")
  }

  /** `getSeries(i)`: the series of column `i`; any other index is out of bounds. */
  function GetSeries(t: Table, i: int): (r: Result<string>)
    ensures r.Success? <==> 0 <= i < |t.columns|
    ensures r.Success? ==> r.value == t.columns[i]
    ensures r.Failure? ==> r.error == "IndexOutOfBoundsException"
  {
    if 0 <= i < |t.columns| then Success(t.columns[i]) else Failure("IndexOutOfBoundsException")
  }

  /** `addRow(line)`: appends the line and its name cells. */
  function AddRow(t: Table, l: GraphLine.Line, showDouble: JavaNumber.Dbl -> string): (r: Table)
    ensures GetRowCount(r) == GetRowCount(t) + 1
    ensures GetLine(r, GetRowCount(t)) == Success(l)
    ensures r.columns == t.columns
  {
    Table(t.rows + [l], t.seriesNames + [NameCells(l, showDouble)], t.columns)
  }

  /** `addColumn(series)`: appends a name column; the three line type columns move right. */
  function AddColumn(t: Table, series: string): (r: Table)
    ensures GetColumnCount(r) == GetColumnCount(t) + 1
    ensures GetSeries(r, |t.columns|) == Success(series)
    ensures r.rows == t.rows && r.seriesNames == t.seriesNames
  {
    Table(t.rows, t.seriesNames, t.columns + [series])
  }

  /** `removeColumn(i)`: removes column `i`; any other index is out of bounds. */
  function RemoveColumn(t: Table, i: int): (r: Result<Table>)
    ensures r.Success? <==> 0 <= i < |t.columns|
    ensures r.Success? ==> r.value.rows == t.rows && r.value.seriesNames == t.seriesNames
                           && r.value.columns == t.columns[..i] + t.columns[i + 1..]
    ensures r.Failure? ==> r.error == "IndexOutOfBoundsException"
  {
    if 0 <= i < |t.columns| then Success(Table(t.rows, t.seriesNames, t.columns[..i] + t.columns[i + 1..]))
    else Failure("IndexOutOfBoundsException")
  }

  /** `removeRow(i)`: removes row `i` and its name cells. The line list is checked first,
      and the name list has the same length in an aligned table. */
  function RemoveRow(t: Table, i: int): (r: Result<Table>)
    ensures r.Success? <==> 0 <= i < |t.rows| && i < |t.seriesNames|
    ensures r.Success? ==> r.value.rows == t.rows[..i] + t.rows[i + 1..]
                           && r.value.seriesNames == t.seriesNames[..i] + t.seriesNames[i + 1..]
                           && r.value.columns == t.columns
    ensures r.Failure? ==> r.error == "IndexOutOfBoundsException"
  {
    if 0 <= i < |t.rows| && i < |t.seriesNames| then
      Success(Table(t.rows[..i] + t.rows[i + 1..], t.seriesNames[..i] + t.seriesNames[i + 1..], t.columns))
    else Failure("IndexOutOfBoundsException")
  }

  /** `clear()`: no rows and no name columns are left. */
  function Clear(t: Table): (r: Table)
    ensures GetRowCount(r) == 0 && GetColumnCount(r) == BasicColumnsCount
  {
    NewTable()
  }

  function GetRowCount(t: Table): (n: nat)
    ensures n == |t.rows|
  {
    |t.rows|
  }

  /** `getColumnCount()`: a column per series and the three line type columns. */
  function GetColumnCount(t: Table): (n: nat)
    ensures n == |t.columns| + BasicColumnsCount
  {
    |t.columns| + BasicColumnsCount
  }

  /** `getColumnName(i)`: the three line type columns follow the series columns; an index
      outside both is out of bounds. */
  function GetColumnName(t: Table, i: int): (r: Result<string>)
    ensures r.Success? <==> 0 <= i < GetColumnCount(t)
    ensures 0 <= i < |t.columns| ==> r == Success(t.columns[i])
    ensures i == |t.columns| ==> r == Success(ColourColumnName)
    ensures i == |t.columns| + 1 ==> r == Success(LineTypeColumnName)
    ensures i == |t.columns| + 2 ==> r == Success(LineWidthColumnName)
  {
    if i == |t.columns| then Success(ColourColumnName)
    else if i == |t.columns| + 1 then Success(LineTypeColumnName)
    else if i == |t.columns| + 2 then Success(LineWidthColumnName)
    else GetSeries(t, i)
  }

  /** `isCellEditable(row, i)`: every column from the colour column on, including indices
      past the last column. */
  predicate IsCellEditable(t: Table, row: int, i: int) {
    i >= |t.columns|
  }

  /** `getValueAt(row, i)`: the colour, style or width of the row's line type, or the
      `i`-th name cell of the row, which may be missing when the name has fewer parts than
      there are series columns. */
  function GetValueAt(t: Table, row: int, i: int): (r: Result<CellValue>)
    ensures i == |t.columns| && 0 <= row < |t.rows| ==> r == Success(ColourValue(Some(t.rows[row].lineType.colour)))
    ensures i == |t.columns| + 1 && 0 <= row < |t.rows| ==> r == Success(StyleValue(t.rows[row].lineType.style))
    ensures i == |t.columns| + 2 && 0 <= row < |t.rows| ==> r == Success(WidthValue(t.rows[row].lineType.width))
    ensures i !in {|t.columns|, |t.columns| + 1, |t.columns| + 2} ==>
              && (0 <= row < |t.seriesNames| && 0 <= i < |t.seriesNames[row]| <==> r.Success?)
              && (r.Success? ==> r.value == TextValue(t.seriesNames[row][i]))
    ensures r.Failure? ==> r.error in {"IndexOutOfBoundsException", "ArrayIndexOutOfBoundsException"}
  {
    if i == |t.columns| || i == |t.columns| + 1 || i == |t.columns| + 2 then
      if !(0 <= row < |t.rows|) then Failure("IndexOutOfBoundsException")
      else
        var lt := t.rows[row].lineType;
        if i == |t.columns| then Success(ColourValue(Some(lt.colour)))
        else if i == |t.columns| + 1 then Success(StyleValue(lt.style))
        else Success(WidthValue(lt.width))
    else if !(0 <= row < |t.seriesNames|) then Failure("IndexOutOfBoundsException")
    else if !(0 <= i < |t.seriesNames[row]|) then Failure("ArrayIndexOutOfBoundsException")
    else Success(TextValue(t.seriesNames[row][i]))
  }

  /** The new line type a value gives in one of the three line type columns (`k` is 0, 1
      or 2): a value of another kind fails the cast, and a null colour is refused. */
  function EditLineType(lt: GraphStyle.LineType, k: int, v: CellValue): (r: Result<GraphStyle.LineType>)
    requires 0 <= k < 3
    ensures r.Success? <==> (k == 0 && v.ColourValue? && v.colour.Some?) || (k == 1 && v.StyleValue?) || (k == 2 && v.WidthValue?)
    ensures r.Failure? && k == 0 && v.ColourValue? ==> r.error == "NullPointerException"
  {
    if k == 0 then
      if !v.ColourValue? then Failure("ClassCastException") else GraphStyle.SetColour(lt, v.colour)
    else if k == 1 then
      if !v.StyleValue? then Failure("ClassCastException") else Success(GraphStyle.SetStyle(lt, v.style))
    else
      if !v.WidthValue? then Failure("ClassCastException") else Success(GraphStyle.SetWidth(lt, v.width))
  }

  /** `setValueAt(v, row, i)`: the row is looked up first; only the three line type columns
      can be set, and setting one changes that attribute of the row's line type. */
  function SetValueAt(t: Table, v: CellValue, row: int, i: int): (r: Result<Table>)
    ensures !(0 <= row < |t.rows|) ==> r == Failure("IndexOutOfBoundsException")
    ensures 0 <= row < |t.rows| && !(|t.columns| <= i < GetColumnCount(t)) ==> r == Failure("IllegalArgumentException")
    ensures r.Success? ==>
              && |r.value.rows| == |t.rows| && r.value.seriesNames == t.seriesNames && r.value.columns == t.columns
              && (forall j :: 0 <= j < |t.rows| && j != row ==> r.value.rows[j] == t.rows[j])
              && r.value.rows[row].groups == t.rows[row].groups
  {
    if !(0 <= row < |t.rows|) then Failure("IndexOutOfBoundsException")
    else if !(|t.columns| <= i < |t.columns| + BasicColumnsCount) then Failure("IllegalArgumentException")
    else
      var l := t.rows[row];
      match EditLineType(l.lineType, i - |t.columns|, v)
      case Failure(e) => Failure(e)
      case Success(lt) => Success(Table(t.rows[row := GraphLine.Line(lt, l.groups)], t.seriesNames, t.columns))
  }

  /** Adding a row keeps every row next to its name cells, and so does removing one. */
  lemma EditsKeepAligned(t: Table, l: GraphLine.Line, i: int, series: string, showDouble: JavaNumber.Dbl -> string)
    requires Aligned(t, showDouble)
    ensures Aligned(AddRow(t, l, showDouble), showDouble)
    ensures RemoveRow(t, i).Success? ==> Aligned(RemoveRow(t, i).value, showDouble)
    ensures Aligned(AddColumn(t, series), showDouble)
    ensures RemoveColumn(t, i).Success? ==> Aligned(RemoveColumn(t, i).value, showDouble)
  {
  }

  /** In an aligned table a row can be removed exactly when it exists. */
  lemma RemoveRowWhenPresent(t: Table, i: int, showDouble: JavaNumber.Dbl -> string)
    requires Aligned(t, showDouble)
    ensures RemoveRow(t, i).Success? <==> 0 <= i < GetRowCount(t)
  {
  }

  /** Setting an editable cell of an existing row to a value of the column's kind succeeds,
      and reading the cell back gives the value; a non-editable cell cannot be set. */
  lemma SetThenGet(t: Table, v: CellValue, row: int, i: int)
    requires 0 <= row < |t.rows|
    ensures SetValueAt(t, v, row, i).Success? <==>
              || (i == |t.columns| && v.ColourValue? && v.colour.Some?)
              || (i == |t.columns| + 1 && v.StyleValue?)
              || (i == |t.columns| + 2 && v.WidthValue?)
    ensures SetValueAt(t, v, row, i).Success? ==> GetValueAt(SetValueAt(t, v, row, i).value, row, i) == Success(v)
    ensures !IsCellEditable(t, row, i) ==> SetValueAt(t, v, row, i) == Failure("IllegalArgumentException")
  {
  }

  /** Setting a line type cell changes only that attribute: the other two line type cells
      of the row, and every cell of every other row, read as before. */
  lemma SetChangesOneCell(t: Table, v: CellValue, row: int, i: int, row2: int, i2: int)
    requires SetValueAt(t, v, row, i).Success?
    requires row2 != row || i2 != i
    ensures GetValueAt(SetValueAt(t, v, row, i).value, row2, i2) == GetValueAt(t, row2, i2)
  {
  }

  /** Columns past the width column are reported editable, yet setting them fails: the
      editor accepts an edit that `setValueAt` refuses. */
  lemma EditablePastLastColumn(t: Table, v: CellValue, row: int)
    requires 0 <= row < |t.rows|
    ensures IsCellEditable(t, row, GetColumnCount(t))
    ensures SetValueAt(t, v, row, GetColumnCount(t)) == Failure("IllegalArgumentException")
  {
  }

  /** The name cells of a row, rejoined with `/`, give the line's name back unless the name
      ends with `/`. */
  lemma NameCellsRejoin(l: GraphLine.Line, showDouble: JavaNumber.Dbl -> string)
    requires var n := GraphLine.GetName(l, showDouble); n == [] || n[|n| - 1] != '/'
    ensures JavaText.Join(NameCells(l, showDouble), "/") == GraphLine.GetName(l, showDouble)
  {
    JavaText.JoinOfSplit(GraphLine.GetName(l, showDouble), '/');
  }
}
