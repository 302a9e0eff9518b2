/** The grid of analysis data handed from the database to the analysis model: rows of one
    x value, named y values and the series group the row belongs to. */
module DataGrid {
  import opened Wrappers
  import JavaText
  import JavaNumber
  import Value

  /** A series group component as the database returns it: null, a `String`, an
      `Integer`, a `Double`, or an object of a class that is not `Comparable`, known only
      by its `toString`. The series query yields `Double`s for result series and for
      parameter series of type `Double`. */
  datatype GroupObj = NullObj | StrObj(s: string) | IntObj(n: int) | DblObj(d: JavaNumber.Dbl)
                    | OtherObj(text: string)

  /** `String`, `Integer` and `Double` are `Comparable`. */
  predicate Comparable(g: GroupObj) {
    g.StrObj? || g.IntObj? || g.DblObj?
  }

  /** The name of a component: "NULL" for null, else its `toString`. `Double.toString` is
      the parameter `showDouble`. */
  function Name(g: GroupObj, showDouble: JavaNumber.Dbl -> string): string {
    match g
    case NullObj => "NULL"
    case StrObj(s) => s
    case IntObj(n) => JavaText.IntToString(n)
    case DblObj(d) => showDouble(d)
    case OtherObj(t) => t
  }

  /** `RowSeriesGroup`: the components of a row's series columns. */
  datatype SeriesGroup = SeriesGroup(groups: seq<GroupObj>)

  function Names(g: SeriesGroup, showDouble: JavaNumber.Dbl -> string): (r: seq<string>)
    ensures |r| == |g.groups| && forall i :: 0 <= i < |r| ==> r[i] == Name(g.groups[i], showDouble)
  {
    seq(|g.groups|, i requires 0 <= i < |g.groups| => Name(g.groups[i], showDouble))
  }

  /** `NULL_SERIES_GROUP`, used when the data are not split by series. */
  const NullSeriesGroup: SeriesGroup := SeriesGroup([])

  /** `getName`: the component names joined with " / ". */
  function GetName(g: SeriesGroup, showDouble: JavaNumber.Dbl -> string): (r: string)
    ensures g.groups == [] ==> r == ""
    ensures |g.groups| == 1 ==> r == Name(g.groups[0], showDouble)
  {
    JavaText.Join(Names(g, showDouble), " / ")
  }

  lemma NullSeriesGroupName(showDouble: JavaNumber.Dbl -> string)
    ensures GetName(NullSeriesGroup, showDouble) == ""
  {
  }

  /** One position of `compareTo`. Two components of the same comparable class compare
      by that class's `compareTo`; anything else compares by name, except that a
      comparable component against a null one fails when asking for the null's class. */
  function CompareComponent(x: GroupObj, y: GroupObj, showDouble: JavaNumber.Dbl -> string): (r: Result<int>)
    ensures r.Failure? <==> Comparable(x) && y.NullObj?
    ensures r == Success(0) ==> Name(x, showDouble) == Name(y, showDouble)
    ensures x == y ==> r == Success(0)
  {
    if Comparable(x) && y.NullObj? then Failure("NullPointerException")
    else if x.StrObj? && y.StrObj? then Success(JavaText.CompareTo(x.s, y.s))
    else if x.IntObj? && y.IntObj? then Success(JavaText.CompareLong(x.n, y.n))
    else if x.DblObj? && y.DblObj? then Success(Value.CompareDbl(x.d, y.d))
    else Success(JavaText.CompareTo(Name(x, showDouble), Name(y, showDouble)))
  }

  /** `Double` components are ordered by value, whatever their text: a smaller number
      comes first, negative infinity before every number and positive infinity after. */
  lemma DoubleGroupsByValue(a: real, b: real, showDouble: JavaNumber.Dbl -> string)
    ensures a < b <==> CompareComponent(DblObj(JavaNumber.Finite(a)), DblObj(JavaNumber.Finite(b)), showDouble) == Success(-1)
    ensures a > b <==> CompareComponent(DblObj(JavaNumber.Finite(a)), DblObj(JavaNumber.Finite(b)), showDouble) == Success(1)
    ensures CompareComponent(DblObj(JavaNumber.NegInf), DblObj(JavaNumber.Finite(a)), showDouble) == Success(-1)
    ensures CompareComponent(DblObj(JavaNumber.PosInf), DblObj(JavaNumber.Finite(a)), showDouble) == Success(1)
  {
  }

  /** `compareTo` from position `i` on: the first position that differs decides. Running
      past the end of the other group is an `ArrayIndexOutOfBoundsException`. */
  function CompareFrom(a: seq<GroupObj>, b: seq<GroupObj>, i: nat, showDouble: JavaNumber.Dbl -> string): (r: Result<int>)
    requires i <= |a| && i <= |b|
    ensures r == Success(0) ==> |a| <= |b| && forall j :: i <= j < |a| ==> Name(a[j], showDouble) == Name(b[j], showDouble)
    decreases |a| - i
  {
    if i == |a| then Success(0)
    else if i == |b| then Failure("ArrayIndexOutOfBoundsException")
    else
      var c :- CompareComponent(a[i], b[i], showDouble);
      if c != 0 then Success(c) else CompareFrom(a, b, i + 1, showDouble)
  }

  /** `RowSeriesGroup.compareTo` against another row series group. */
  function CompareTo(a: SeriesGroup, b: SeriesGroup, showDouble: JavaNumber.Dbl -> string): (r: Result<int>)
    ensures r == Success(0) && |a.groups| == |b.groups| ==> Names(a, showDouble) == Names(b, showDouble)
  {
    CompareFrom(a.groups, b.groups, 0, showDouble)
  }

  /** The order is lexicographic: a non-zero result is that of the first position whose
      components do not compare equal, and this is that position. */
  function FirstDifference(a: seq<GroupObj>, b: seq<GroupObj>, i: nat, showDouble: JavaNumber.Dbl -> string): (k: nat)
    requires i <= |a| && i <= |b| && CompareFrom(a, b, i, showDouble).Success?
    requires CompareFrom(a, b, i, showDouble).value != 0
    ensures i <= k < |a| && k < |b| && CompareComponent(a[k], b[k], showDouble) == CompareFrom(a, b, i, showDouble)
    ensures forall j :: i <= j < k ==> CompareComponent(a[j], b[j], showDouble) == Success(0)
    decreases |a| - i
  {
    if CompareComponent(a[i], b[i], showDouble).value != 0 then i else FirstDifference(a, b, i + 1, showDouble)
  }

  /** Every group compares equal to itself. */
  lemma {:induction false} CompareFromReflexive(a: seq<GroupObj>, i: nat, showDouble: JavaNumber.Dbl -> string)
    requires i <= |a|
    ensures CompareFrom(a, a, i, showDouble) == Success(0)
    decreases |a| - i
  {
    if i < |a| {
      CompareFromReflexive(a, i + 1, showDouble);
    }
  }

  lemma CompareToReflexive(g: SeriesGroup, showDouble: JavaNumber.Dbl -> string)
    ensures CompareTo(g, g, showDouble) == Success(0)
  {
    CompareFromReflexive(g.groups, 0, showDouble);
  }

  /** Single-series groups of result values are ordered by value: the group of 9.0 comes
      before that of 10.0, however the two print. */
  lemma DoubleSeriesByValue(showDouble: JavaNumber.Dbl -> string)
    ensures CompareTo(SeriesGroup([DblObj(JavaNumber.Finite(9.0))]), SeriesGroup([DblObj(JavaNumber.Finite(10.0))]), showDouble)
            == Success(-1)
  {
    DoubleGroupsByValue(9.0, 10.0, showDouble);
  }

  /** A `Double` component against a null one raises, as a `String` one does. */
  lemma DoubleAgainstNullFails(a: seq<GroupObj>, b: seq<GroupObj>, showDouble: JavaNumber.Dbl -> string)
    requires |a| == |b| && 0 < |a| && a[0].DblObj? && b[0].NullObj?
    ensures CompareTo(SeriesGroup(a), SeriesGroup(b), showDouble).Failure?
  {
  }

  /** A cell of a table row: a value (possibly null) or a series name. */
  datatype Cell = ValueCell(v: Option<Value.Value>) | NameCell(name: string)

  /** `Row`: the x value, the y values by column name, and the series group. The row owns
      its copy of the y values. */
  datatype Row = Row(x: Option<Value.Value>, y: map<string, Option<Value.Value>>,
                     series: SeriesGroup)

  /** `getyValue`: null for a name the row does not hold. */
  function GetY(r: Row, name: string): (v: Option<Value.Value>)
    ensures name !in r.y ==> v.None?
  {
    if name in r.y then r.y[name] else None
  }

  /** `addyValue`: sets one column, replacing any value it held. */
  function AddY(r: Row, name: string, v: Option<Value.Value>): (s: Row)
    ensures GetY(s, name) == v && s.x == r.x && s.series == r.series
    ensures forall n :: n != name ==> GetY(s, n) == GetY(r, n)
    ensures s.y.Keys == r.y.Keys + {name}
  {
    r.(y := r.y[name := v])
  }

  /** The order in which the row's hash map yields its values: every column once. */
  predicate IsKeyOrder(r: Row, order: seq<string>) {
    (forall i, j :: 0 <= i < j < |order| ==> order[i] != order[j])
    && (forall k :: k in order ==> k in r.y) && (forall k :: k in r.y ==> k in order)
  }

  /** `asTableRow`: the x value, then the y values in the map's iteration order, then the
      series names. */
  function AsTableRow(r: Row, order: seq<string>, showDouble: JavaNumber.Dbl -> string): (row: seq<Cell>)
    requires IsKeyOrder(r, order)
    ensures |row| == 1 + |order| + |r.series.groups|
    ensures row[0] == ValueCell(r.x)
    ensures forall k :: k in r.y ==> ValueCell(r.y[k]) in row[1..1 + |order|]
    ensures forall j :: 0 <= j < |r.series.groups| ==>
              row[1 + |order| + j] == NameCell(Name(r.series.groups[j], showDouble))
  {
    var ys := seq(|order|, i requires 0 <= i < |order| => ValueCell(r.y[order[i]]));
    var ns := seq(|r.series.groups|, j requires 0 <= j < |r.series.groups| => NameCell(Name(r.series.groups[j], showDouble)));
    var row := [ValueCell(r.x)] + ys + ns;
    assert row[1..1 + |order|] == ys;
    forall k | k in r.y ensures ValueCell(r.y[k]) in ys {
      var i :| 0 <= i < |order| && order[i] == k;
      assert ys[i] == ValueCell(r.y[k]);
    }
    row
  }

  datatype DataGrid = DataGrid(xAxisName: string, yAxisName: string, rows: seq<Row>)

  /** `getColumnNames`: the two axis names, then the first row's series names. */
  function GetColumnNames(g: DataGrid, showDouble: JavaNumber.Dbl -> string): (r: seq<string>)
    ensures |r| >= 2 && r[0] == g.xAxisName && r[1] == g.yAxisName
    ensures g.rows == [] ==> |r| == 2
    ensures g.rows != [] ==> r[2..] == Names(g.rows[0].series, showDouble)
  {
    if g.rows == [] then [g.xAxisName, g.yAxisName]
    else [g.xAxisName, g.yAxisName] + Names(g.rows[0].series, showDouble)
  }

  /** With one y column, the first row's table row lines up with the column names: the
      same length, and the series names in the same places. */
  lemma ColumnsMatchFirstRow(g: DataGrid, order: seq<string>, showDouble: JavaNumber.Dbl -> string)
    requires g.rows != [] && |g.rows[0].y| == 1 && IsKeyOrder(g.rows[0], order) && |order| == 1
    ensures var row := AsTableRow(g.rows[0], order, showDouble);
            var names := GetColumnNames(g, showDouble);
            |row| == |names|
            && forall j :: 2 <= j < |row| ==> row[j] == NameCell(names[j])
  {
    var row := AsTableRow(g.rows[0], order, showDouble);
    var names := GetColumnNames(g, showDouble);
    forall j | 2 <= j < |row| ensures row[j] == NameCell(names[j]) {
      assert names[j] == names[2..][j - 2];
    }
  }
}
