/** `AbstractPlotter`: the plotter state shared by every plotter, the tab-separated data rows
    it writes for the plotting program, the x-axis tic numbering, and the image-size and
    plot-type setters. */
module AbstractPlotter {
  import opened Wrappers
  import JavaText
  import opened JavaNumber
  import Collections
  import DefaultHashMap

  /** `Constants.Plot.IMAGE_MIN_SIZE`. */
  const ImageMinSize: int := 50

  /** `Constants.Plot.IMAGE_SIZE_INCREMENTS`. */
  const ImageSizeIncrements: int := 20

  /** A cell of `getTableData()`: null, an `Integer`, a `Double`, or any other object, known
      by its `toString`. */
  datatype Cell = NullCell | IntCell(n: int) | DblCell(d: Dbl) | TextCell(text: string)

  type Row = seq<Cell>

  predicate IsNumber(c: Cell) { c.IntCell? || c.DblCell? }

  /** The plot type. Only `KIVIAT` changes how data are written; the other types are told
      apart by name. */
  datatype PlotKind = Kiviat | OtherPlot(name: string)

  /** The plotter state: the x tics (a default map over a `LinkedHashMap` whose creator
      counts up from 0 and restarts on reset), the image size, and the plot type, null until
      set. */
  datatype Plotter = Plotter(xtics: DefaultHashMap.DefaultMap<string, int>, width: int, height: int,
                             plotType: Option<PlotKind>)

  /** The state every plotter keeps: its tic creator numbers 0, 1, … and restarts on
      reset. */
  ghost predicate Valid(p: Plotter) {
    && p.xtics.creator.resets
    && forall n: nat :: p.xtics.creator.make(n) == n
  }

  /** A new plotter: no tics, the minimum image size, no plot type. */
  function NewPlotter(): (p: Plotter)
    ensures Valid(p)
    ensures p.xtics.base == map[] && p.xtics.creator.count == 0
    ensures p.width == ImageMinSize && p.height == ImageMinSize && p.plotType == None
  {
    Plotter(DefaultHashMap.DefaultMap(map[], DefaultHashMap.Creator((n: nat) => n as int, true, 0)),
            ImageMinSize, ImageMinSize, None)
  }

  predicate IsKiviat(p: Plotter) { p.plotType == Some(Kiviat) }

  /** `setPlotType(t)`: stores the type and says whether it differs from the one before. */
  function SetPlotType(p: Plotter, t: Option<PlotKind>): (r: (bool, Plotter))
    ensures r.0 <==> p.plotType != t
    ensures r.1 == p.(plotType := t)
  {
    (p.plotType != t, p.(plotType := t))
  }

  /** Setting the same plot type again reports no change. */
  lemma SetPlotTypeTwice(p: Plotter, t: Option<PlotKind>)
    ensures !SetPlotType(SetPlotType(p, t).1, t).0
    ensures SetPlotType(SetPlotType(p, t).1, t).1 == SetPlotType(p, t).1
  {
  }

  // ---------------------------------------------------------------------------------------
  // Image size

  /** `round(a, 20)`: `(a / 20) * 20` with Java's division, which truncates toward zero. */
  function Round(a: int): (r: int)
    ensures r % ImageSizeIncrements == 0
    ensures a >= 0 ==> 0 <= r <= a < r + ImageSizeIncrements
    ensures a < 0 ==> r - ImageSizeIncrements < a <= r <= 0
  {
    if a >= 0 then (a / ImageSizeIncrements) * ImageSizeIncrements
    else -(((-a) / ImageSizeIncrements) * ImageSizeIncrements)
  }

  /** One dimension of a requested size: rounded down to a multiple of 20, and no less than
      50. */
  function NewSize(a: int): (r: int)
    ensures r >= ImageMinSize
    ensures a < 60 ==> r == ImageMinSize
    ensures a >= 60 ==> r % ImageSizeIncrements == 0 && r <= a < r + ImageSizeIncrements
  {
    var n := Round(a);
    if n > ImageMinSize then n else ImageMinSize
  }

  function Abs(x: int): nat { if x < 0 then -x else x }

  /** `setImageSize(size)`: the new size is adopted, and `true` returned, only if one of its
      rounded dimensions moves by more than 20 from the current size. */
  function SetImageSize(p: Plotter, w: int, h: int): (r: (bool, Plotter))
    ensures r.0 <==> Abs(NewSize(w) - p.width) > ImageSizeIncrements || Abs(NewSize(h) - p.height) > ImageSizeIncrements
    ensures r.0 ==> r.1 == p.(width := NewSize(w), height := NewSize(h))
    ensures !r.0 ==> r.1 == p
  {
    var nw, nh := NewSize(w), NewSize(h);
    if Abs(nw - p.width) > ImageSizeIncrements || Abs(nh - p.height) > ImageSizeIncrements then
      (true, p.(width := nw, height := nh))
    else (false, p)
  }

  /** Asking twice for the same size changes nothing the second time. */
  lemma SetImageSizeTwice(p: Plotter, w: int, h: int)
    ensures !SetImageSize(SetImageSize(p, w, h).1, w, h).0
  {
  }

  /** A size whose rounding moves neither dimension by more than 20 is refused, so the
      stored size changes in steps larger than 20. */
  lemma SetImageSizeSmallStep(p: Plotter, w: int, h: int)
    requires p.width >= ImageMinSize && p.height >= ImageMinSize
    requires p.width % ImageSizeIncrements == 0 && p.height % ImageSizeIncrements == 0
    requires p.width <= w < p.width + 2 * ImageSizeIncrements
    requires p.height <= h < p.height + 2 * ImageSizeIncrements
    ensures !SetImageSize(p, w, h).0
  {
  }

  // ---------------------------------------------------------------------------------------
  // Cell text

  /** `Number.doubleValue()`. */
  function DoubleValue(c: Cell): (d: Dbl)
    requires IsNumber(c)
    ensures c.IntCell? ==> d == Finite(c.n as real)
  {
    match c
    case IntCell(n) => Finite(n as real)
    case DblCell(d) => d
  }

  /** `toString()` of a non-null cell; `show` is `Double.toString`. */
  function CellText(c: Cell, show: Dbl -> string): (r: string)
    requires c != NullCell
    ensures c.IntCell? ==> r == JavaText.IntToString(c.n)
    ensures c.DblCell? ==> r == show(c.d)
    ensures c.TextCell? ==> r == c.text
  {
    match c
    case IntCell(n) => JavaText.IntToString(n)
    case DblCell(d) => show(d)
    case TextCell(t) => t
  }

  /** IEEE division of doubles, on exact values (signed zeros are not told apart). */
  function Divide(a: Dbl, b: Dbl): (r: Dbl)
    ensures a.Finite? && b.Finite? && b.x != 0.0 ==> r == Finite(a.x / b.x)
    ensures a.NaN? || b.NaN? ==> r.NaN?
    ensures a.Finite? && a.x != 0.0 && b == Finite(0.0) ==> r.PosInf? || r.NegInf?
  {
    match (a, b)
    case (NaN, _) => NaN
    case (_, NaN) => NaN
    case (Finite(x), Finite(y)) =>
      if y != 0.0 then Finite(x / y)
      else if x > 0.0 then PosInf
      else if x < 0.0 then NegInf
      else NaN
    case (Finite(_), _) => Finite(0.0)
    case (PosInf, Finite(y)) => if y < 0.0 then NegInf else PosInf
    case (NegInf, Finite(y)) => if y < 0.0 then PosInf else NegInf
    case (_, _) => NaN
  }

  // ---------------------------------------------------------------------------------------
  // Rows

  /** Which cells a row may hold: the x is not null, and a y is null or a number; in a
      Kiviat plot the second cell may be anything (it is written as `1.0`), but a number
      after it is divided by the second cell, which must then be null or a number. */
  predicate CellWritable(kiviat: bool, row: Row, i: int)
    requires 1 <= i < |row|
  {
    if !kiviat then !row[i].TextCell?
    else i == 1 || row[i] == NullCell || (IsNumber(row[i]) && !row[1].TextCell?)
  }

  /** One y cell of `outputRow`, without its leading tab. */
  function YValue(kiviat: bool, row: Row, i: int, show: Dbl -> string): (r: Result<string>)
    requires 1 <= i < |row|
    ensures r.Success? <==> CellWritable(kiviat, row, i)
    ensures r.Success? && row[i] == NullCell && !(kiviat && i == 1) ==> r.value == "-"
    ensures r.Success? && kiviat && i == 1 ==> r.value == "1.0"
  {
    if kiviat then
      if i == 1 then Success("1.0")
      else if row[i] == NullCell then Success("-")
      else if !IsNumber(row[i]) then Failure("IllegalStateException")
      else if row[1] == NullCell then Success("-")
      else if !IsNumber(row[1]) then Failure("ClassCastException")
      else Success(show(Divide(DoubleValue(row[i]), DoubleValue(row[1]))))
    else
      if row[i] == NullCell then Success("-")
      else if !IsNumber(row[i]) then Failure("IllegalStateException")
      else Success(show(DoubleValue(row[i])))
  }

  /** The y cells from index `i` on, each after a tab. */
  function YValues(kiviat: bool, row: Row, i: int, show: Dbl -> string): (r: Result<string>)
    requires 1 <= i <= |row|
    ensures r.Success? <==> forall j :: i <= j < |row| ==> CellWritable(kiviat, row, j)
    ensures r.Success? ==> JavaText.CountOf('\t', r.value) >= |row| - i
    decreases |row| - i
  {
    if i == |row| then Success("")
    else
      var y :- YValue(kiviat, row, i, show);
      var rest :- YValues(kiviat, row, i + 1, show);
      JavaText.CountOfAppend('\t', "\t" + y, rest);
      JavaText.CountOfAppend('\t', "\t", y);
      Success("\t" + y + rest)
  }

  /** `outputXValue`: a null x is refused; a number outside a Kiviat plot is written as it
      is; anything else is written as its tic index, which `get` creates when the text is
      new. */
  function XValue(p: Plotter, c: Cell, show: Dbl -> string): (r: Result<(string, Plotter)>)
    ensures r.Success? <==> c != NullCell
    ensures r.Success? ==> r.value.1 == p.(xtics := r.value.1.xtics)
    ensures r.Success? && IsNumber(c) && !IsKiviat(p) ==> r.value == (CellText(c, show), p)
  {
    if c == NullCell then Failure("IllegalStateException")
    else if IsNumber(c) && !IsKiviat(p) then Success((CellText(c, show), p))
    else
      var (i, m) := DefaultHashMap.Get(p.xtics, CellText(c, show));
      Success((JavaText.IntToString(i), p.(xtics := m)))
  }

  /** `outputRow`: the x, the tab-led y cells, and a newline. */
  function OutputRow(p: Plotter, row: Row, show: Dbl -> string): (r: Result<(string, Plotter)>)
    ensures r.Success? <==> row == [] || (row[0] != NullCell && forall j :: 1 <= j < |row| ==> CellWritable(IsKiviat(p), row, j))
    ensures r.Success? ==> JavaText.EndsWith(r.value.0, "\n")
    ensures r.Success? ==> r.value.1 == p.(xtics := r.value.1.xtics)
  {
    if row == [] then Success(("\n", p))
    else
      var (x, p1) :- XValue(p, row[0], show);
      var ys :- YValues(IsKiviat(p), row, 1, show);
      Success((x + ys + "\n", p1))
  }

  /** The first loop of `writePlotData`: every row is written unless it equals the row
      before it. `last` is the row before the first of `rows`, if any. */
  function WriteRows(p: Plotter, rows: seq<Row>, last: Option<Row>, show: Dbl -> string): (r: Result<(string, Plotter)>)
    ensures r.Success? ==> r.value.1 == p.(xtics := r.value.1.xtics)
    decreases |rows|
  {
    if rows == [] then Success(("", p))
    else if last == Some(rows[0]) then WriteRows(p, rows[1..], last, show)
    else
      var (t, p1) :- OutputRow(p, rows[0], show);
      var (u, p2) :- WriteRows(p1, rows[1..], Some(rows[0]), show);
      Success((t + u, p2))
  }

  /** The second loop of `writePlotData` in a Kiviat plot: the leading rows whose x text is
      `firstX` are written again, so the line closes on itself. */
  function RepeatFirstX(p: Plotter, rows: seq<Row>, firstX: string, show: Dbl -> string): (r: Result<(string, Plotter)>)
    ensures r.Success? ==> r.value.1 == p.(xtics := r.value.1.xtics)
    decreases |rows|
  {
    if rows == [] then Success(("", p))
    else if rows[0] == [] then Failure("ArrayIndexOutOfBoundsException")
    else if rows[0][0] == NullCell then Failure("NullPointerException")
    else if CellText(rows[0][0], show) != firstX then Success(("", p))
    else
      var (t, p1) :- OutputRow(p, rows[0], show);
      var (u, p2) :- RepeatFirstX(p1, rows[1..], firstX, show);
      Success((t + u, p2))
  }

  /** `writePlotData`: clears the tics, refuses an empty table, writes the rows and, in a
      Kiviat plot, repeats the leading rows of the first x. Only the tics change. */
  function WritePlotData(p: Plotter, table: seq<Row>, show: Dbl -> string): (r: Result<(string, Plotter)>)
    ensures table == [] ==> r == Failure("IOException")
    ensures r.Success? ==> r.value.1 == p.(xtics := r.value.1.xtics)
    ensures r.Success? && table[0] != [] ==> r.value.0 != []
  {
    var p0 := p.(xtics := DefaultHashMap.Clear(p.xtics));
    if table == [] then Failure("IOException")
    else
      var (out, p1) :- WriteRows(p0, table, None, show);
      if !IsKiviat(p1) then Success((out, p1))
      else if table[0] == [] then Failure("ArrayIndexOutOfBoundsException")
      else if table[0][0] == NullCell then Failure("NullPointerException")
      else
        var (more, p2) :- RepeatFirstX(p1, table, CellText(table[0][0], show), show);
        Success((out + more, p2))
  }

  // ---------------------------------------------------------------------------------------
  // Skipping repeated rows

  /** A row equal to the row before it adds nothing to the first loop. */
  lemma {:induction false} RepeatedRowAddsNothing(p: Plotter, rows: seq<Row>, last: Option<Row>, x: Row, show: Dbl -> string)
    requires if rows == [] then last == Some(x) else rows[|rows| - 1] == x
    ensures WriteRows(p, rows + [x], last, show) == WriteRows(p, rows, last, show)
    decreases |rows|
  {
    if rows != [] {
      assert (rows + [x])[0] == rows[0] && (rows + [x])[1..] == rows[1..] + [x];
      if last == Some(rows[0]) {
        RepeatedRowAddsNothing(p, rows[1..], last, x, show);
      } else {
        var o := OutputRow(p, rows[0], show);
        if o.Success? {
          RepeatedRowAddsNothing(o.value.1, rows[1..], Some(rows[0]), x, show);
        }
      }
    }
  }

  /** Outside Kiviat plots, writing a table whose last row is repeated writes the same data
      as the table without the repeat. */
  lemma RepeatedLastRowSkipped(p: Plotter, table: seq<Row>, show: Dbl -> string)
    requires table != [] && !IsKiviat(p)
    ensures WritePlotData(p, table + [table[|table| - 1]], show) == WritePlotData(p, table, show)
  {
    var p0 := p.(xtics := DefaultHashMap.Clear(p.xtics));
    RepeatedRowAddsNothing(p0, table, None, table[|table| - 1], show);
  }

  /** The Kiviat repeat reads no row after the first whose x differs from the first x. */
  lemma {:induction false} RepeatStopsAtNewX(p: Plotter, rows: seq<Row>, k: int, firstX: string, show: Dbl -> string)
    requires 0 <= k < |rows|
    requires forall i :: 0 <= i <= k ==> rows[i] != [] && rows[i][0] != NullCell
    requires forall i :: 0 <= i < k ==> CellText(rows[i][0], show) == firstX
    requires CellText(rows[k][0], show) != firstX
    ensures RepeatFirstX(p, rows, firstX, show) == RepeatFirstX(p, rows[..k], firstX, show)
    decreases k
  {
    if k > 0 {
      assert rows[..k][0] == rows[0] && rows[..k][1..] == rows[1..][..k - 1];
      var o := OutputRow(p, rows[0], show);
      if o.Success? {
        RepeatStopsAtNewX(o.value.1, rows[1..], k - 1, firstX, show);
      }
    }
  }

  // ---------------------------------------------------------------------------------------
  // Tic numbering

  /** The key a row looks up in the tics, if its x is written as a tic index. */
  function XKey(kiviat: bool, row: Row, show: Dbl -> string): (r: Option<string>)
    ensures r.Some? <==> row != [] && row[0] != NullCell && (kiviat || row[0].TextCell?)
  {
    if row == [] || row[0] == NullCell || (!kiviat && IsNumber(row[0])) then None
    else Some(CellText(row[0], show))
  }

  function KeySeq(k: Option<string>): (r: seq<string>)
    ensures |r| <= 1
  {
    if k.Some? then [k.value] else []
  }

  /** The tic keys of the rows, in row order, repeats included. */
  function XKeys(kiviat: bool, rows: seq<Row>, show: Dbl -> string): (r: seq<string>)
    decreases |rows|
  {
    if rows == [] then [] else KeySeq(XKey(kiviat, rows[0], show)) + XKeys(kiviat, rows[1..], show)
  }

  /** Each element of a list without repeats mapped to its position. */
  function Positions(d: seq<string>): (m: map<string, int>)
    ensures forall k :: k in m <==> k in d
  {
    map k | k in d :: Collections.IndexOf(d, k)
  }

  /** Tic numbers by first appearance: the `i`-th distinct key seen gets `i`. */
  function Numbering(ks: seq<string>): (m: map<string, int>)
    ensures forall k :: k in m <==> k in ks
  {
    Positions(Collections.Dedup(ks))
  }

  /** A tic map that has numbered the keys `ks` in first-seen order, with a creator ready to
      hand out the next number. */
  ghost predicate Numbered(m: DefaultHashMap.DefaultMap<string, int>, ks: seq<string>) {
    && m.base == Numbering(ks)
    && m.creator.count == |Collections.Dedup(ks)|
    && m.creator.resets
    && forall n: nat :: m.creator.make(n) == n
  }

  /** An element appended to a list gets the next position; the others keep theirs. */
  lemma PositionsSnoc(d: seq<string>, k: string)
    requires k !in d
    ensures Positions(d + [k]) == Positions(d)[k := |d|]
  {
    var a, b := Positions(d + [k]), Positions(d)[k := |d|];
    forall j | j in a
      ensures a[j] == b[j]
    {
      Collections.IndexOfSnoc(d, k, j);
    }
    assert a.Keys == b.Keys;
  }

  /** A new key gets the next number; the others keep theirs. */
  lemma NumberingSnoc(ks: seq<string>, k: string)
    requires k !in ks
    ensures Numbering(ks + [k]) == Numbering(ks)[k := |Collections.Dedup(ks)|]
    ensures |Collections.Dedup(ks + [k])| == |Collections.Dedup(ks)| + 1
  {
    Collections.DedupSnoc(ks, k);
    PositionsSnoc(Collections.Dedup(ks), k);
  }

  /** Looking up one more key keeps the numbering, and returns the key's number. */
  lemma GetNumbered(m: DefaultHashMap.DefaultMap<string, int>, ks: seq<string>, k: string)
    requires Numbered(m, ks)
    ensures Numbered(DefaultHashMap.Get(m, k).1, ks + [k])
    ensures DefaultHashMap.Get(m, k).0 == Collections.IndexOf(Collections.Dedup(ks + [k]), k)
  {
    Collections.DedupSnoc(ks, k);
    if k !in ks {
      NumberingSnoc(ks, k);
    }
  }

  /** A repeated key changes nothing in the numbering. */
  lemma NumberedRepeat(m: DefaultHashMap.DefaultMap<string, int>, ks: seq<string>, k: string)
    requires Numbered(m, ks) && k in ks
    ensures Numbered(m, ks + [k])
  {
    Collections.DedupSnoc(ks, k);
  }

  /** Writing a row numbers its tic key, if it has one, and nothing else. */
  lemma OutputRowNumbered(p: Plotter, row: Row, ks: seq<string>, show: Dbl -> string)
    requires Numbered(p.xtics, ks)
    requires OutputRow(p, row, show).Success?
    ensures Numbered(OutputRow(p, row, show).value.1.xtics, ks + KeySeq(XKey(IsKiviat(p), row, show)))
  {
    if row != [] && XKey(IsKiviat(p), row, show).Some? {
      GetNumbered(p.xtics, ks, CellText(row[0], show));
    } else {
      assert ks + [] == ks;
    }
  }

  /** After the first loop the tics number the keys of all the rows, skipped ones included,
      in first-seen order. */
  lemma {:induction false} WriteRowsNumbered(p: Plotter, rows: seq<Row>, last: Option<Row>, ks: seq<string>, show: Dbl -> string)
    requires Numbered(p.xtics, ks)
    requires last.Some? ==> forall k :: k in KeySeq(XKey(IsKiviat(p), last.value, show)) ==> k in ks
    requires WriteRows(p, rows, last, show).Success?
    ensures Numbered(WriteRows(p, rows, last, show).value.1.xtics, ks + XKeys(IsKiviat(p), rows, show))
    decreases |rows|
  {
    if rows == [] {
      assert ks + [] == ks;
    } else {
      var key := KeySeq(XKey(IsKiviat(p), rows[0], show));
      var rest := XKeys(IsKiviat(p), rows[1..], show);
      assert ks + (key + rest) == (ks + key) + rest;
      if last == Some(rows[0]) {
        if key != [] {
          NumberedRepeat(p.xtics, ks, key[0]);
          assert key == [key[0]];
        } else {
          assert ks + key == ks;
        }
        WriteRowsNumbered(p, rows[1..], last, ks + key, show);
      } else {
        var o := OutputRow(p, rows[0], show);
        OutputRowNumbered(p, rows[0], ks, show);
        WriteRowsNumbered(o.value.1, rows[1..], Some(rows[0]), ks + key, show);
      }
    }
  }

  /** The Kiviat repeat only looks up the first x again, which is already numbered. */
  lemma {:induction false} RepeatKeepsNumbering(p: Plotter, rows: seq<Row>, firstX: string, ks: seq<string>, show: Dbl -> string)
    requires IsKiviat(p) && Numbered(p.xtics, ks) && firstX in ks
    requires RepeatFirstX(p, rows, firstX, show).Success?
    ensures Numbered(RepeatFirstX(p, rows, firstX, show).value.1.xtics, ks)
    decreases |rows|
  {
    if rows != [] && rows[0] != [] && rows[0][0] != NullCell && CellText(rows[0][0], show) == firstX {
      var o := OutputRow(p, rows[0], show);
      OutputRowNumbered(p, rows[0], ks, show);
      Collections.DedupSnoc(ks, firstX);
      assert Numbered(o.value.1.xtics, ks);
      RepeatKeepsNumbering(o.value.1, rows[1..], firstX, ks, show);
    }
  }

  /** After `writePlotData` the tics hold exactly the x texts written as tic indices, each
      numbered by the order of its first appearance: 0, 1, 2, …, counted afresh on every
      call. */
  lemma XticsFirstSeen(p: Plotter, table: seq<Row>, show: Dbl -> string)
    requires Valid(p)
    requires WritePlotData(p, table, show).Success?
    ensures Valid(WritePlotData(p, table, show).value.1)
    ensures WritePlotData(p, table, show).value.1.xtics.base == Numbering(XKeys(IsKiviat(p), table, show))
  {
    var p0 := p.(xtics := DefaultHashMap.Clear(p.xtics));
    assert Numbered(p0.xtics, []);
    WriteRowsNumbered(p0, table, None, [], show);
    var ks := XKeys(IsKiviat(p), table, show);
    assert [] + ks == ks;
    var p1 := WriteRows(p0, table, None, show).value.1;
    if IsKiviat(p1) {
      var fx := CellText(table[0][0], show);
      assert XKey(true, table[0], show) == Some(fx);
      assert ks == [fx] + XKeys(true, table[1..], show);
      RepeatKeepsNumbering(p1, table, fx, ks, show);
    }
  }

  /** Numbers as keys: every tic number lies below the number of distinct keys, and
      different keys get different numbers. */
  lemma NumberingIsIndex(ks: seq<string>)
    ensures forall k :: k in Numbering(ks) ==> 0 <= Numbering(ks)[k] < |Collections.Dedup(ks)|
    ensures forall a, b :: a in Numbering(ks) && b in Numbering(ks) && a != b ==> Numbering(ks)[a] != Numbering(ks)[b]
  {
  }

  // ---------------------------------------------------------------------------------------
  // Worked examples

  /** A three-cell row with an integer x, outside Kiviat plots: the x, then each y after a
      tab, `-` for null. */
  lemma ThreeCellRow(p: Plotter, x: int, a: Cell, b: Cell, show: Dbl -> string)
    requires !IsKiviat(p) && !a.TextCell? && !b.TextCell?
    ensures OutputRow(p, [IntCell(x), a, b], show)
            == Success((JavaText.IntToString(x) + ("\t" + YText(a, show) + ("\t" + YText(b, show) + "")) + "\n", p))
  {
    var row := [IntCell(x), a, b];
    assert YValues(false, row, 3, show) == Success("");
    assert YValues(false, row, 2, show) == Success("\t" + YText(b, show) + "");
  }

  /** The text of a non-Kiviat y cell that is null or a number. */
  function YText(c: Cell, show: Dbl -> string): string
    requires !c.TextCell?
  {
    if c == NullCell then "-" else show(DoubleValue(c))
  }

  /** The rows of the worked examples. */
  const R1: Row := [IntCell(1), DblCell(Finite(0.1)), DblCell(Finite(0.2))]
  const R2: Row := [IntCell(2), DblCell(Finite(0.3)), NullCell]
  const R3: Row := [IntCell(3), NullCell, DblCell(Finite(0.3))]
  const R4: Row := [IntCell(4), NullCell, DblCell(Finite(0.3))]

  /** The text of each example row: the x, each y after a tab, `-` for null. */
  lemma ExampleRowsLow(show: Dbl -> string)
    requires show(Finite(0.1)) == "0.1" && show(Finite(0.2)) == "0.2" && show(Finite(0.3)) == "0.3"
    ensures OutputRow(NewPlotter(), R1, show) == Success(("1\t0.1\t0.2\n", NewPlotter()))
    ensures OutputRow(NewPlotter(), R2, show) == Success(("2\t0.3\t-\n", NewPlotter()))
  {
    var p := NewPlotter();
    assert JavaText.IntToString(1) == "1" && JavaText.IntToString(2) == "2";
    ThreeCellRow(p, 1, R1[1], R1[2], show);
    assert YText(R1[1], show) == "0.1" && YText(R1[2], show) == "0.2";
    assert "1" + ("\t" + "0.1" + ("\t" + "0.2" + "")) + "\n" == "1\t0.1\t0.2\n";
    ThreeCellRow(p, 2, R2[1], R2[2], show);
    assert YText(R2[1], show) == "0.3" && YText(R2[2], show) == "-";
    assert "2" + ("\t" + "0.3" + ("\t" + "-" + "")) + "\n" == "2\t0.3\t-\n";
  }

  /** The text of the other example rows. */
  lemma ExampleRowsHigh(show: Dbl -> string)
    requires show(Finite(0.3)) == "0.3"
    ensures OutputRow(NewPlotter(), R3, show) == Success(("3\t-\t0.3\n", NewPlotter()))
    ensures OutputRow(NewPlotter(), R4, show) == Success(("4\t-\t0.3\n", NewPlotter()))
  {
    var p := NewPlotter();
    assert JavaText.IntToString(3) == "3" && JavaText.IntToString(4) == "4";
    ThreeCellRow(p, 3, R3[1], R3[2], show);
    assert YText(R3[1], show) == "-" && YText(R3[2], show) == "0.3";
    assert "3" + ("\t" + "-" + ("\t" + "0.3" + "")) + "\n" == "3\t-\t0.3\n";
    ThreeCellRow(p, 4, R4[1], R4[2], show);
    assert YText(R4[1], show) == "-" && YText(R4[2], show) == "0.3";
    assert "4" + ("\t" + "-" + ("\t" + "0.3" + "")) + "\n" == "4\t-\t0.3\n";
  }

  /** Three rows: tab-separated columns, with `-` for each null. */
  lemma TabSeparatedExample(show: Dbl -> string)
    requires show(Finite(0.1)) == "0.1" && show(Finite(0.2)) == "0.2" && show(Finite(0.3)) == "0.3"
    ensures WritePlotData(NewPlotter(), [R1, R2, R3], show)
            == Success(("1\t0.1\t0.2\n" + ("2\t0.3\t-\n" + ("3\t-\t0.3\n" + "")), NewPlotter()))
  {
    var p := NewPlotter();
    assert p.(xtics := DefaultHashMap.Clear(p.xtics)) == p;
    ExampleRowsLow(show);
    ExampleRowsHigh(show);
    var one: seq<Row>, two: seq<Row>, three: seq<Row> := [R3], [R2, R3], [R1, R2, R3];
    assert |one[1..]| == 0 && two[1..] == one && three[1..] == two;
    assert WriteRows(p, one[1..], Some(R3), show) == Success(("", p));
    assert WriteRows(p, one, Some(R2), show) == Success(("3\t-\t0.3\n" + "", p));
    assert WriteRows(p, two, Some(R1), show) == Success(("2\t0.3\t-\n" + ("3\t-\t0.3\n" + ""), p));
  }

  /** The last three rows of the repeated-rows example, after a first row: the repeat of
      the x = 3 row is skipped. */
  lemma RepeatedRowsTail(show: Dbl -> string)
    requires show(Finite(0.3)) == "0.3"
    ensures WriteRows(NewPlotter(), [R3, R3, R4], Some(R1), show)
            == Success(("3\t-\t0.3\n" + ("4\t-\t0.3\n" + ""), NewPlotter()))
  {
    var p := NewPlotter();
    var rows: seq<Row> := [R3, R3, R4];
    ExampleRowsHigh(show);
    assert rows[1..] == [R3, R4] && rows[2..] == [R4] && |rows[3..]| == 0;
    assert WriteRows(p, rows[3..], Some(R4), show) == Success(("", p));
    assert WriteRows(p, rows[2..], Some(R3), show) == Success(("4\t-\t0.3\n" + "", p));
    assert WriteRows(p, rows[1..], Some(R3), show) == Success(("4\t-\t0.3\n" + "", p));
  }

  /** Repeated rows are written once. */
  lemma RepeatedRowsExample(show: Dbl -> string)
    requires show(Finite(0.1)) == "0.1" && show(Finite(0.2)) == "0.2" && show(Finite(0.3)) == "0.3"
    ensures WritePlotData(NewPlotter(), [R1, R1, R3, R3, R4], show)
            == Success(("1\t0.1\t0.2\n" + ("3\t-\t0.3\n" + ("4\t-\t0.3\n" + "")), NewPlotter()))
  {
    var p := NewPlotter();
    var rows: seq<Row> := [R1, R1, R3, R3, R4];
    assert p.(xtics := DefaultHashMap.Clear(p.xtics)) == p;
    ExampleRowsLow(show);
    RepeatedRowsTail(show);
    assert rows[1..] == [R1, R3, R3, R4] && rows[2..] == [R3, R3, R4];
    assert WriteRows(p, rows[1..], Some(R1), show) == Success(("3\t-\t0.3\n" + ("4\t-\t0.3\n" + ""), p));
  }
}
