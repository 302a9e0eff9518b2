/** `GraphLine`: one line of a graph, made of the series groups whose data it plots, and
    drawn with a line type. */
module GraphLine {
  import opened Wrappers
  import JavaText
  import JavaNumber
  import DataGrid
  import GraphStyle

  datatype Line = Line(lineType: GraphStyle.LineType, groups: seq<DataGrid.SeriesGroup>)

  /** `new GraphLine()`: no groups and the default line type. */
  function NewLine(): (r: Line)
    ensures r.groups == [] && r.lineType == GraphStyle.NewLineType()
    ensures forall showDouble: JavaNumber.Dbl -> string :: GetName(r, showDouble) == ""
  {
    Line(GraphStyle.NewLineType(), [])
  }

  /** `getNames`: the names of the groups, in the order they were added. `Double.toString`
      is the parameter `showDouble`, as in `DataGrid.Name`. */
  function GetNames(l: Line, showDouble: JavaNumber.Dbl -> string): (r: seq<string>)
    ensures |r| == |l.groups|
    ensures forall i :: 0 <= i < |r| ==> r[i] == DataGrid.GetName(l.groups[i], showDouble)
    decreases |l.groups|
  {
    if l.groups == [] then []
    else GetNames(Line(l.lineType, l.groups[..|l.groups| - 1]), showDouble)
         + [DataGrid.GetName(l.groups[|l.groups| - 1], showDouble)]
  }

  /** `getName`: the group names joined with `" / "`. */
  function GetName(l: Line, showDouble: JavaNumber.Dbl -> string): (r: string)
    ensures l.groups == [] ==> r == ""
    ensures |l.groups| == 1 ==> r == DataGrid.GetName(l.groups[0], showDouble)
  {
    JavaText.Join(GetNames(l, showDouble), " / ")
  }

  /** `getSeriesGroup(i)`: the `i`-th group; an index outside the list is out of bounds. */
  function GetSeriesGroup(l: Line, i: int): (r: Result<DataGrid.SeriesGroup>)
    ensures r.Success? <==> 0 <= i < |l.groups|
    ensures r.Failure? ==> r.error == "IndexOutOfBoundsException"
  {
    if 0 <= i < |l.groups| then Success(l.groups[i]) else Failure("IndexOutOfBoundsException")
  }

  /** `addSeriesGroup(g)`: appends one group. */
  function AddSeriesGroup(l: Line, g: DataGrid.SeriesGroup): (r: Line)
    ensures r.lineType == l.lineType
    ensures |r.groups| == |l.groups| + 1
  {
    Line(l.lineType, l.groups + [g])
  }

  /** `addSeriesGroups(other)`: appends the other line's groups, in order. */
  function AddSeriesGroups(l: Line, other: Line): (r: Line)
    ensures r.lineType == l.lineType
    ensures |r.groups| == |l.groups| + |other.groups|
  {
    Line(l.lineType, l.groups + other.groups)
  }

  /** Adding groups one at a time, left to right. */
  function AddEach(l: Line, gs: seq<DataGrid.SeriesGroup>): (r: Line)
    ensures r.lineType == l.lineType
    decreases |gs|
  {
    if gs == [] then l else AddEach(AddSeriesGroup(l, gs[0]), gs[1..])
  }

  /** After an add, the new group is read back at the next index, and the earlier groups
      are where they were. */
  lemma GetAfterAdd(l: Line, g: DataGrid.SeriesGroup)
    ensures GetSeriesGroup(AddSeriesGroup(l, g), |l.groups|) == Success(g)
    ensures forall i :: 0 <= i < |l.groups| ==> GetSeriesGroup(AddSeriesGroup(l, g), i) == GetSeriesGroup(l, i)
  {
  }

  /** Adding another line's groups is adding them one by one, in that line's order, so the
      `i`-th group added is read back at index `i`. */
  lemma {:induction false} AddSeriesGroupsIsAddEach(l: Line, other: Line)
    ensures AddSeriesGroups(l, other) == AddEach(l, other.groups)
    decreases |other.groups|
  {
    if other.groups != [] {
      var gs := other.groups;
      AddSeriesGroupsIsAddEach(AddSeriesGroup(l, gs[0]), Line(other.lineType, gs[1..]));
      assert l.groups + [gs[0]] + gs[1..] == l.groups + gs;
    }
  }

  /** Groups added to a new line are read back by index in the order they were added. */
  lemma NewLineReadsBack(gs: seq<DataGrid.SeriesGroup>)
    ensures forall i :: 0 <= i < |gs| ==> GetSeriesGroup(AddEach(NewLine(), gs), i) == Success(gs[i])
  {
    AddSeriesGroupsIsAddEach(NewLine(), Line(GraphStyle.NewLineType(), gs));
    var r := AddEach(NewLine(), gs);
    assert r.groups == NewLine().groups + gs;
    assert r.groups == gs;
  }

  /** Adding a group adds its name at the end of the names, and at the end of the line name
      after a `" / "` unless it is the first. */
  lemma NameAfterAdd(l: Line, g: DataGrid.SeriesGroup, showDouble: JavaNumber.Dbl -> string)
    ensures GetNames(AddSeriesGroup(l, g), showDouble) == GetNames(l, showDouble) + [DataGrid.GetName(g, showDouble)]
    ensures GetName(AddSeriesGroup(l, g), showDouble)
            == if l.groups == [] then DataGrid.GetName(g, showDouble)
               else GetName(l, showDouble) + " / " + DataGrid.GetName(g, showDouble)
  {
    var r := AddSeriesGroup(l, g);
    assert r.groups[..|r.groups| - 1] == l.groups;
    if l.groups != [] {
      JavaText.JoinAppend(GetNames(l, showDouble), DataGrid.GetName(g, showDouble), " / ");
    }
  }

  /** The names of a merged line are the names of the first line followed by those of the
      second. */
  lemma NamesAfterAddAll(l: Line, other: Line, showDouble: JavaNumber.Dbl -> string)
    ensures GetNames(AddSeriesGroups(l, other), showDouble) == GetNames(l, showDouble) + GetNames(other, showDouble)
  {
  }
}
