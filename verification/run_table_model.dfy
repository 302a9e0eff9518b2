/** `RunTableModel`: the table of loaded results files waiting to be saved into the
    database. Each row holds the file, the run loaded from it, whether it is to be added,
    its save state and any exception stored against it. */
module RunTableModel {
  import opened Wrappers
  import JavaFile
  import Run

  const ColumnNames: seq<string> := ["Directory", "File Name", "Add"]

  /** The column holding the "to add" flag, the only editable and the only Boolean one. */
  const AddColumn := 2

  datatype State = Incomplete | Complete | Added | Failed

  datatype Colour = Colour(red: int, green: int, blue: int)

  const DefaultColour := Colour(0xFF, 0xFF, 0xFF)
  const AddedColour := Colour(0xAA, 0xFF, 0xAA)
  const FailedColour := Colour(0xFF, 0x99, 0x99)

  /** One row: the file's path, the run loaded from it, the "to add" flag, the state and
      the message of the stored exception, if any. */
  datatype FileInfo = FileInfo(path: string, run: Run.Run, toAdd: bool, state: State, exception: Option<string>)

  /** A value read from or written to a cell: a Boolean, or any other object (`None` for
      null), which is how the two text columns read. */
  datatype Value = BoolValue(b: bool) | TextValue(text: Option<string>)

  /** `addFile(run)`: a new row for the run's file, to be added and not yet complete. A
      run without a file cannot be given a `File`. */
  function AddFile(fs: seq<FileInfo>, run: Run.Run): (r: Result<seq<FileInfo>>)
    ensures r.Success? <==> run.file.Some?
    ensures r.Success? ==> r.value == fs + [FileInfo(run.file.value, run, true, Incomplete, None)]
    ensures r.Failure? ==> r.error == "NullPointerException"
  {
    if run.file.None? then Failure("NullPointerException")
    else Success(fs + [FileInfo(run.file.value, run, true, Incomplete, None)])
  }

  /** `getRunsToAdd()`: the runs of the rows marked to be added, in row order. */
  function RunsToAdd(fs: seq<FileInfo>): (r: seq<Run.Run>)
    ensures |r| <= |fs|
  {
    if fs == [] then []
    else RunsToAdd(fs[..|fs| - 1]) + (if fs[|fs| - 1].toAdd then [fs[|fs| - 1].run] else [])
  }

  /** The runs to add of two tables placed one after the other are those of the first
      followed by those of the second: the rows keep their order. */
  lemma {:induction false} RunsToAddAppend(fs: seq<FileInfo>, gs: seq<FileInfo>)
    ensures RunsToAdd(fs + gs) == RunsToAdd(fs) + RunsToAdd(gs)
    decreases |gs|
  {
    if gs != [] {
      var init := gs[..|gs| - 1];
      var all := fs + gs;
      assert all[..|all| - 1] == fs + init;
      assert all[|all| - 1] == gs[|gs| - 1];
      RunsToAddAppend(fs, init);
      var tail := if gs[|gs| - 1].toAdd then [gs[|gs| - 1].run] else [];
      assert RunsToAdd(all) == RunsToAdd(fs + init) + tail;
      assert RunsToAdd(gs) == RunsToAdd(init) + tail;
    } else {
      assert fs + gs == fs;
    }
  }

  /** A run is to be added exactly when some row holding it is marked. */
  lemma {:induction false} RunsToAddMembers(fs: seq<FileInfo>, x: Run.Run)
    ensures x in RunsToAdd(fs) <==> exists i :: 0 <= i < |fs| && fs[i].toAdd && fs[i].run == x
  {
    if fs != [] {
      var init := fs[..|fs| - 1];
      RunsToAddMembers(init, x);
      if exists i :: 0 <= i < |fs| && fs[i].toAdd && fs[i].run == x {
        var i :| 0 <= i < |fs| && fs[i].toAdd && fs[i].run == x;
        if i < |init| {
          assert init[i] == fs[i];
        }
      }
      if exists i :: 0 <= i < |init| && init[i].toAdd && init[i].run == x {
        var i :| 0 <= i < |init| && init[i].toAdd && init[i].run == x;
        assert fs[i] == init[i];
      }
    }
  }

  /** A successfully added file's run goes to the end of the runs to add. */
  lemma AddFileRunsToAdd(fs: seq<FileInfo>, run: Run.Run)
    requires run.file.Some?
    ensures RunsToAdd(AddFile(fs, run).value) == RunsToAdd(fs) + [run]
  {
    var f := FileInfo(run.file.value, run, true, Incomplete, None);
    RunsToAddAppend(fs, [f]);
  }

  /** One row after `setAdded(run, success)`: a row holding an equal run is marked added
      and no longer to be added, or marked failed and left to be added. */
  function MarkAdded(f: FileInfo, run: Run.Run, success: bool): (r: FileInfo)
    ensures r.path == f.path && r.run == f.run && r.exception == f.exception
    ensures !Run.Equals(f.run, run) ==> r == f
    ensures Run.Equals(f.run, run) && success ==> r.state == Added && !r.toAdd
    ensures Run.Equals(f.run, run) && !success ==> r.state == Failed && r.toAdd == f.toAdd
  {
    if !Run.Equals(f.run, run) then f
    else if success then f.(state := Added, toAdd := false)
    else f.(state := Failed)
  }

  /** `setAdded(run, success)`: every row whose run equals `run` is marked. */
  function SetAdded(fs: seq<FileInfo>, run: Run.Run, success: bool): (r: seq<FileInfo>)
    ensures |r| == |fs|
    ensures forall i :: 0 <= i < |fs| ==> r[i] == MarkAdded(fs[i], run, success)
  {
    seq(|fs|, i requires 0 <= i < |fs| => MarkAdded(fs[i], run, success))
  }

  /** The runs in `rs` that do not equal `run`, in order. */
  function WithoutRun(rs: seq<Run.Run>, run: Run.Run): (r: seq<Run.Run>)
    ensures forall k :: 0 <= k < |r| ==> !Run.Equals(r[k], run)
  {
    if rs == [] then []
    else WithoutRun(rs[..|rs| - 1], run) + (if Run.Equals(rs[|rs| - 1], run) then [] else [rs[|rs| - 1]])
  }

  /** Removing the runs equal to `run` from two sequences placed one after the other. */
  lemma {:induction false} WithoutRunAppend(a: seq<Run.Run>, b: seq<Run.Run>, run: Run.Run)
    ensures WithoutRun(a + b, run) == WithoutRun(a, run) + WithoutRun(b, run)
    decreases |b|
  {
    if b == [] {
      assert a + b == a;
    } else {
      var init := b[..|b| - 1];
      var all := a + b;
      assert all[..|all| - 1] == a + init;
      assert all[|all| - 1] == b[|b| - 1];
      WithoutRunAppend(a, init, run);
    }
  }

  /** After a successful save, the runs still to be added are the earlier ones except those
      equal to the saved run. */
  lemma {:induction false} SavedRunsNotToAdd(fs: seq<FileInfo>, run: Run.Run)
    ensures RunsToAdd(SetAdded(fs, run, true)) == WithoutRun(RunsToAdd(fs), run)
  {
    if fs != [] {
      var n := |fs|;
      var init := fs[..n - 1];
      var a := SetAdded(fs, run, true);
      SavedRunsNotToAdd(init, run);
      assert a[..n - 1] == SetAdded(init, run, true);
      var tail := if fs[n - 1].toAdd then [fs[n - 1].run] else [];
      WithoutRunAppend(RunsToAdd(init), tail, run);
      SavedRowNotToAdd(fs[n - 1], run);
    }
  }

  /** The run a single row still has to add after a successful save of `run`. */
  lemma SavedRowNotToAdd(f: FileInfo, run: Run.Run)
    ensures var m := MarkAdded(f, run, true);
            (if m.toAdd then [m.run] else []) == WithoutRun(if f.toAdd then [f.run] else [], run)
  {
    if f.toAdd {
      assert [f.run][..0] == [];
    }
  }

  /** After a failed save the runs to be added are unchanged. */
  lemma {:induction false} FailedRunsStillToAdd(fs: seq<FileInfo>, run: Run.Run)
    ensures RunsToAdd(SetAdded(fs, run, false)) == RunsToAdd(fs)
  {
    if fs != [] {
      var n := |fs|;
      var init := fs[..n - 1];
      var a := SetAdded(fs, run, false);
      FailedRunsStillToAdd(init, run);
      assert a[..n - 1] == SetAdded(init, run, false);
      assert a[n - 1].toAdd == fs[n - 1].toAdd && a[n - 1].run == fs[n - 1].run;
    }
  }

  /** `setException(run, e)`: every row whose run equals `run` stores the exception. */
  function SetException(fs: seq<FileInfo>, run: Run.Run, e: Option<string>): (r: seq<FileInfo>)
    ensures |r| == |fs|
    ensures forall i :: 0 <= i < |fs| && !Run.Equals(fs[i].run, run) ==> r[i] == fs[i]
    ensures forall i :: 0 <= i < |fs| && Run.Equals(fs[i].run, run) ==> r[i] == fs[i].(exception := e)
  {
    seq(|fs|, i requires 0 <= i < |fs| => if Run.Equals(fs[i].run, run) then fs[i].(exception := e) else fs[i])
  }

  /** `getRowException(row)`: the exception stored against the row, if any. */
  function GetRowException(fs: seq<FileInfo>, row: int): (r: Result<Option<string>>)
    ensures r.Success? <==> 0 <= row < |fs|
    ensures r.Success? ==> r.value == fs[row].exception
    ensures r.Failure? ==> r.error == "IndexOutOfBoundsException"
  {
    if 0 <= row < |fs| then Success(fs[row].exception) else Failure("IndexOutOfBoundsException")
  }

  /** An exception stored against a run is read back from every row holding it. */
  lemma SetExceptionReadBack(fs: seq<FileInfo>, run: Run.Run, e: Option<string>, row: int)
    requires 0 <= row < |fs| && Run.Equals(fs[row].run, run)
    ensures GetRowException(SetException(fs, run, e), row) == Success(e)
  {
  }

  /** `getRunFileAt(row)`: the run and file of the row. */
  function GetRunFileAt(fs: seq<FileInfo>, row: int): (r: Result<(Run.Run, string)>)
    ensures r.Success? <==> 0 <= row < |fs|
    ensures r.Success? ==> r.value == (fs[row].run, fs[row].path)
    ensures r.Failure? ==> r.error == "IndexOutOfBoundsException"
  {
    if 0 <= row < |fs| then Success((fs[row].run, fs[row].path)) else Failure("IndexOutOfBoundsException")
  }

  /** `toggleRow(row)`: flips the row's "to add" flag and nothing else. */
  function ToggleRow(fs: seq<FileInfo>, row: int): (r: Result<seq<FileInfo>>)
    ensures r.Success? <==> 0 <= row < |fs|
    ensures r.Success? ==> |r.value| == |fs| && r.value[row].toAdd == !fs[row].toAdd
                           && r.value[row] == fs[row].(toAdd := r.value[row].toAdd)
                           && forall i :: 0 <= i < |fs| && i != row ==> r.value[i] == fs[i]
    ensures r.Failure? ==> r.error == "IndexOutOfBoundsException"
  {
    if 0 <= row < |fs| then Success(fs[row := fs[row].(toAdd := !fs[row].toAdd)])
    else Failure("IndexOutOfBoundsException")
  }

  /** Toggling a row twice restores the table. */
  lemma ToggleTwice(fs: seq<FileInfo>, row: int)
    requires 0 <= row < |fs|
    ensures ToggleRow(ToggleRow(fs, row).value, row) == Success(fs)
  {
    var t := ToggleRow(ToggleRow(fs, row).value, row).value;
    assert t[row] == fs[row];
    assert t == fs;
  }

  function GetColumnCount(): (n: nat)
    ensures n == 3
  {
    |ColumnNames|
  }

  /** `getColumnName(c)`: an index outside the three names is out of the array's bounds. */
  function GetColumnName(c: int): (r: Result<string>)
    ensures r.Success? <==> 0 <= c < GetColumnCount()
    ensures c == AddColumn ==> r == Success("Add")
    ensures r.Failure? ==> r.error == "ArrayIndexOutOfBoundsException"
  {
    if 0 <= c < |ColumnNames| then Success(ColumnNames[c]) else Failure("ArrayIndexOutOfBoundsException")
  }

  /** `isCellEditable(row, c)`: only the last column. */
  predicate IsCellEditable(row: int, c: int) {
    c == |ColumnNames| - 1
  }

  /** `getColumnClass(c)`: the last column holds Booleans, every other one text. */
  predicate IsBooleanColumn(c: int) {
    c == |ColumnNames| - 1
  }

  /** `getValueAt(row, c)`: the file's directory (null when it has none), its name, or the
      "to add" flag; any other column is refused. */
  function GetValueAt(fs: seq<FileInfo>, row: int, c: int): (r: Result<Value>)
    ensures !(0 <= row < |fs|) ==> r == Failure("IndexOutOfBoundsException")
    ensures 0 <= row < |fs| ==> (r.Success? <==> 0 <= c < GetColumnCount())
    ensures 0 <= row < |fs| && c == 0 ==> r == Success(TextValue(JavaFile.Parent(fs[row].path)))
    ensures 0 <= row < |fs| && c == 1 ==> r == Success(TextValue(Some(JavaFile.Name(fs[row].path))))
    ensures 0 <= row < |fs| && c == AddColumn ==> r == Success(BoolValue(fs[row].toAdd))
    ensures r.Success? ==> (r.value.BoolValue? <==> IsBooleanColumn(c))
  {
    if !(0 <= row < |fs|) then Failure("IndexOutOfBoundsException")
    else if c == 0 then Success(TextValue(JavaFile.Parent(fs[row].path)))
    else if c == 1 then Success(TextValue(Some(JavaFile.Name(fs[row].path))))
    else if c == 2 then Success(BoolValue(fs[row].toAdd))
    else Failure("IllegalArgumentException")
  }

  /** `setValueAt(v, row, c)`: in the last column a non-Boolean is refused before the row
      is looked up; a Boolean sets the row's flag. Other columns ignore the value. */
  function SetValueAt(fs: seq<FileInfo>, v: Value, row: int, c: int): (r: Result<seq<FileInfo>>)
    ensures c != AddColumn ==> r == Success(fs)
    ensures c == AddColumn && !v.BoolValue? ==> r == Failure("IllegalArgumentException")
    ensures c == AddColumn && v.BoolValue? ==>
              && (r.Success? <==> 0 <= row < |fs|)
              && (r.Failure? ==> r.error == "IndexOutOfBoundsException")
  {
    if c != AddColumn then Success(fs)
    else if !v.BoolValue? then Failure("IllegalArgumentException")
    else if !(0 <= row < |fs|) then Failure("IndexOutOfBoundsException")
    else Success(fs[row := fs[row].(toAdd := v.b)])
  }

  /** A Boolean written to the "Add" cell of a row is read back there, the other cells of
      every row read as before, and the runs to add are those of the edited table. */
  lemma SetThenGet(fs: seq<FileInfo>, b: bool, row: int, row2: int, c2: int)
    requires 0 <= row < |fs|
    requires row2 != row || c2 != AddColumn
    ensures GetValueAt(SetValueAt(fs, BoolValue(b), row, AddColumn).value, row, AddColumn) == Success(BoolValue(b))
    ensures GetValueAt(SetValueAt(fs, BoolValue(b), row, AddColumn).value, row2, c2) == GetValueAt(fs, row2, c2)
  {
  }

  /** Setting the flag to its current value is the same as not setting it; toggling is
      setting it to the opposite. */
  lemma SetAndToggle(fs: seq<FileInfo>, row: int)
    requires 0 <= row < |fs|
    ensures SetValueAt(fs, BoolValue(fs[row].toAdd), row, AddColumn) == Success(fs)
    ensures SetValueAt(fs, BoolValue(!fs[row].toAdd), row, AddColumn) == ToggleRow(fs, row)
  {
    var t := SetValueAt(fs, BoolValue(fs[row].toAdd), row, AddColumn).value;
    assert t[row] == fs[row];
    assert t == fs;
  }

  /** `getRowColor(row)`: by the row's state. */
  function GetRowColour(fs: seq<FileInfo>, row: int): (r: Result<Colour>)
    ensures r.Success? <==> 0 <= row < |fs|
    ensures r.Success? ==> r.value == match fs[row].state
                                      case Added => AddedColour
                                      case Failed => FailedColour
                                      case _ => DefaultColour
  {
    if !(0 <= row < |fs|) then Failure("IndexOutOfBoundsException")
    else match fs[row].state
         case Added => Success(AddedColour)
         case Failed => Success(FailedColour)
         case _ => Success(DefaultColour)
  }

  /** The three row colours tell the states apart: added, failed, and the rest. */
  lemma ColoursDistinct()
    ensures AddedColour != FailedColour && AddedColour != DefaultColour && FailedColour != DefaultColour
  {
  }

  /** A new row is drawn in the default colour; after `setAdded` every row holding an
      equal run is drawn in the added or the failed colour. */
  lemma RowColourAfterSave(fs: seq<FileInfo>, run: Run.Run, success: bool, row: int)
    requires run.file.Some?
    requires 0 <= row < |fs| && Run.Equals(fs[row].run, run)
    ensures GetRowColour(AddFile(fs, run).value, |fs|) == Success(DefaultColour)
    ensures GetRowColour(SetAdded(fs, run, success), row) == Success(if success then AddedColour else FailedColour)
  {
  }

  /** `clear()`: no rows are left. */
  function Clear(fs: seq<FileInfo>): (r: seq<FileInfo>)
    ensures RunsToAdd(r) == [] && GetRowCount(r) == 0
  {
    []
  }

  function GetRowCount(fs: seq<FileInfo>): (n: nat)
    ensures n == |fs|
  {
    |fs|
  }
}
