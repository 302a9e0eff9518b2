/** `JdbcMapping`: how each field of the results application's objects maps to a column of
    the results database, the business keys the JDBC layer matches rows by, the foreign-key
    columns tables are joined on, and the SQL fragments a column contributes to `SELECT` and
    `INSERT` statements. */
module JdbcMapping {
  import opened Wrappers
  import JavaText
  import opened JdbcTable

  /** The Java type a column is read back as. */
  datatype ColType =
    | StringType | IntegerType | DoubleType | DateType | BooleanType | CategoryType
    | ComparatorType | RankType | LongType | ErrorTypeType | AxisNameType | AxisTypeType
    | AxisValueTypeType | LineStyleType | LineColourType

  /** A column of `table` called `name`; `Parameter.Value` has no type of its own (`null`),
      because its type is stored in the row. */
  datatype Column = Column(table: Table, name: string, colType: Option<ColType>)

  /** The one column spread over several database columns: a parameter's value, stored as a
      type tag and one column per value type. */
  predicate IsParameterValue(c: Column) { c.table == Parameter && c.name == "Value" }

  /** A sub-run's parent, inserted together with its sequence number. */
  predicate IsSubRunParent(c: Column) { c.table == SubRun && c.name == "ParentRun" }

  // ---------------------------------------------------------------------------
  // SELECT and INSERT fragments
  // ---------------------------------------------------------------------------

  /** `select(tableRef, alias)`: the column qualified by `tableRef` (by default the table's
      reference), optionally renamed. A parameter's value selects its type and a `CASE` over
      the type picking the matching value column, named by the alias (by default `Value`). */
  function Select(c: Column, tableRef: Option<string>, alias: Option<string>): (r: string)
    ensures !IsParameterValue(c) ==> JavaText.StartsWith(r, tableRef.GetOr(Reference(c.table)) + "." + c.name)
    ensures IsParameterValue(c) ==> JavaText.StartsWith(r, tableRef.GetOr(Reference(c.table)) + ".Type, CASE ")
  {
    var ref := tableRef.GetOr(Reference(c.table));
    if IsParameterValue(c) then
      var a := alias.GetOr(c.name);
      ref + ".Type, CASE " + ref + ".Type WHEN 'String' THEN " + ref + ".StringValue WHEN 'Double' THEN "
      + ref + ".DoubleValue WHEN 'Integer' THEN " + ref + ".IntegerValue END AS `" + a + "`"
    else if alias.None? then ref + "." + c.name
    else ref + "." + c.name + " AS " + alias.value
  }

  /** An alias renames an ordinary column without changing what is selected. */
  lemma SelectAlias(c: Column, tableRef: Option<string>, a: string)
    requires !IsParameterValue(c)
    ensures Select(c, tableRef, Some(a)) == Select(c, tableRef, None) + " AS " + a
  {
  }

  /** A parameter's value selects the type column first and names the picked value after
      the alias. */
  lemma SelectParameterValue(c: Column, tableRef: Option<string>, alias: Option<string>)
    requires IsParameterValue(c)
    ensures JavaText.EndsWith(Select(c, tableRef, alias), " END AS `" + alias.GetOr("Value") + "`")
  {
  }

  /** The database columns a column is inserted into. */
  function InsertNames(c: Column): (r: seq<string>)
    ensures |r| == (if IsParameterValue(c) then 4 else if IsSubRunParent(c) then 2 else 1)
    ensures !IsParameterValue(c) ==> r[0] == c.name
  {
    if IsParameterValue(c) then ["Type", "IntegerValue", "DoubleValue", "StringValue"]
    else if IsSubRunParent(c) then ["ParentRun", "Sequence"]
    else [c.name]
  }

  /** `insertColumns()`: the inserted columns separated by `", "`, so
      `"Type, IntegerValue, DoubleValue, StringValue"` for a parameter's value. */
  function InsertColumns(c: Column): string {
    JavaText.Join(InsertNames(c), ", ")
  }

  /** `placeHolder()`. */
  function PlaceHolder(c: Column): string {
    if IsParameterValue(c) then "?, ?, ?, ?"
    else if IsSubRunParent(c) then "?, ?"
    else "?"
  }

  /** `n` parameter markers. */
  function Marks(n: nat): (r: seq<string>)
    ensures |r| == n && forall i :: 0 <= i < n ==> r[i] == "?"
  {
    seq(n, _ => "?")
  }

  /** A comma-separated list of `n` markers holds exactly `n` of them. */
  lemma {:induction false} MarksCount(n: nat)
    ensures JavaText.CountOf('?', JavaText.Join(Marks(n), ", ")) == n
  {
    if n > 1 {
      MarksCount(n - 1);
      assert Marks(n)[1..] == Marks(n - 1);
      JavaText.CountOfAppend('?', "?", ", ");
      JavaText.CountOfAppend('?', "?" + ", ", JavaText.Join(Marks(n - 1), ", "));
    } else if n == 1 {
      assert Marks(1) == ["?"];
    }
  }

  /** Four markers, as one list. */
  lemma FourMarks()
    ensures JavaText.Join(Marks(4), ", ") == "?, ?, ?, ?"
  {
    var ms := Marks(4);
    assert ms[3..] == ["?"] && ms[2..] == ["?", "?"] && ms[1..] == ["?", "?", "?"];
    assert JavaText.Join(ms[2..], ", ") == "?, ?";
    assert JavaText.Join(ms[1..], ", ") == "?, ?, ?";
  }

  /** The placeholder list has one `?` per inserted column, in the same comma-separated
      form as the column list. */
  lemma InsertMatchesPlaceHolder(c: Column)
    ensures PlaceHolder(c) == JavaText.Join(Marks(|InsertNames(c)|), ", ")
    ensures JavaText.CountOf('?', PlaceHolder(c)) == |InsertNames(c)|
  {
    var n := |InsertNames(c)|;
    if IsParameterValue(c) {
      FourMarks();
    } else if IsSubRunParent(c) {
      assert Marks(2)[1..] == ["?"];
    } else {
      assert Marks(1) == ["?"];
    }
    MarksCount(n);
  }

  // ---------------------------------------------------------------------------
  // The column maps
  // ---------------------------------------------------------------------------

  /** One entry of a table map: the object's field name and its column. */
  type Entry = (string, Column)

  function E(t: Table, key: string, name: string, ty: ColType): Entry {
    (key, Column(t, name, Some(ty)))
  }

  /** The column map of each table, in insertion order. */
  function TableMap(t: Table): seq<Entry> {
    match t
    case Analysis =>
      [E(t, "creator", "Creator", StringType), E(t, "notes", "Notes", StringType),
       E(t, "dataPrivate", "Private", BooleanType), E(t, "date", "Date", DateType)]
    case AnalysisCriteria =>
      [E(t, "analysisId", "AnalysisID", LongType), E(t, "sequence", "Sequence", LongType),
       E(t, "category", "Category", CategoryType), E(t, "field", "Field", StringType),
       E(t, "rank", "Rank", RankType), E(t, "comparator", "Comparator", ComparatorType),
       E(t, "value", "Value", StringType), E(t, "valueType", "ValueType", StringType)]
    case AnalysisDerivedData =>
      [E(t, "analysisId", "AnalysisID", LongType), E(t, "name", "Name", StringType),
       E(t, "equation", "Equation", StringType)]
    case AnalysisGraph =>
      [E(t, "analysisId", "AnalysisID", LongType), E(t, "xAxisName", "xAxisName", AxisNameType),
       E(t, "yAxisName", "yAxisName", AxisNameType), E(t, "xAxisType", "xAxisType", AxisTypeType),
       E(t, "yAxisType", "yAxisType", AxisTypeType),
       E(t, "axisValueType", "AxisValueType", AxisValueTypeType), E(t, "rank", "Rank", RankType),
       E(t, "lineStyle", "LineStyle", LineStyleType), E(t, "lineColour", "LineColour", LineColourType),
       E(t, "lineWidth", "LineWidth", LongType)]
    case AnalysisAxisLabel =>
      [E(t, "analysisId", "AnalysisID", LongType), E(t, "oldText", "OldText", StringType),
       E(t, "newText", "NewText", StringType)]
    case Application =>
      [E(t, "name", "Name", StringType), E(t, "versionMajor", "VersionMajor", IntegerType),
       E(t, "versionMinor", "VersionMinor", IntegerType), E(t, "versionBuild", "VersionBuild", IntegerType),
       E(t, "versionCode", "VersionCode", StringType), E(t, "description", "Description", StringType),
       E(t, "dataPrivate", "Private", BooleanType)]
    case Compiler =>
      [E(t, "name", "Name", StringType), E(t, "vendor", "Vendor", StringType),
       E(t, "versionMajor", "VersionMajor", IntegerType), E(t, "versionMinor", "VersionMinor", IntegerType),
       E(t, "versionBuild", "VersionBuild", IntegerType)]
    case Machine =>
      [E(t, "name", "Name", StringType), E(t, "vendor", "Vendor", StringType)]
    case Mpi =>
      [E(t, "name", "Name", StringType), E(t, "vendor", "Vendor", StringType),
       E(t, "versionMajor", "VersionMajor", IntegerType), E(t, "versionMinor", "VersionMinor", IntegerType),
       E(t, "versionBuild", "VersionBuild", IntegerType)]
    case OperatingSystem =>
      [E(t, "name", "Name", StringType), E(t, "vendor", "Vendor", StringType),
       E(t, "versionMajor", "VersionMajor", IntegerType), E(t, "versionMinor", "VersionMinor", IntegerType),
       E(t, "versionBuild", "VersionBuild", IntegerType),
       E(t, "versionBuildMinor", "VersionBuildMinor", IntegerType), E(t, "kernel", "Kernel", StringType)]
    case Processor =>
      [E(t, "name", "Name", StringType), E(t, "vendor", "Vendor", StringType),
       E(t, "architecture", "ProcessorArchitecture", StringType),
       E(t, "clockSpeed", "ClockSpeedHz", IntegerType), E(t, "cores", "CoresPerProcessor", IntegerType),
       E(t, "threadsPerCore", "ThreadsPerCore", IntegerType)]
    case Run =>
      [E(t, "creator", "RunCreator", StringType), E(t, "insertionDate", "Date", DateType),
       E(t, "restricted", "Private", BooleanType), E(t, "runDate", "RunDate", DateType),
       E(t, "runId", "RunID", StringType), E(t, "tag", "Tag", StringType), E(t, "file", "File", StringType)]
    case Parameter =>
      [E(t, "name", "Name", StringType), E(t, "rank", "Rank", RankType),
       ("value", Column(t, "Value", None))]
    case Result =>
      [E(t, "name", "Name", StringType), E(t, "rank", "Rank", RankType), E(t, "value", "Value", DoubleType),
       E(t, "error", "Error", DoubleType), E(t, "errorType", "ErrorType", ErrorTypeType),
       E(t, "count", "Count", LongType), E(t, "pauseCount", "PauseCount", LongType)]
    case Flags =>
      [E(t, "flag", "Flag", StringType)]
    case RunFlags =>
      [E(t, "runId", "RunID", LongType), E(t, "flagId", "FlagID", LongType)]
    case SubRun =>
      [E(t, "run", "ParentRun", LongType), E(t, "sequence", "Sequence", LongType)]
  }

  /** Every column of a table's map belongs to that table. */
  lemma TableMapColumn(t: Table, i: nat)
    requires i < |TableMap(t)|
    ensures TableMap(t)[i].1.table == t
  {
    match t
    case Application | Compiler | Machine | Mpi | OperatingSystem | Processor => DimensionColumns(t, i);
    case Result | Parameter | Run | SubRun | RunFlags | Flags => RunColumns(t, i);
    case Analysis | AnalysisCriteria | AnalysisDerivedData | AnalysisGraph | AnalysisAxisLabel => AnalysisColumns(t, i);
  }

  /** `TableMapColumn` for the dimension tables. */
  lemma DimensionColumns(t: Table, i: nat)
    requires t in {Application, Compiler, Machine, Mpi, OperatingSystem, Processor} && i < |TableMap(t)|
    ensures TableMap(t)[i].1.table == t
  {
  }

  /** `TableMapColumn` for the run and measurement tables. */
  lemma RunColumns(t: Table, i: nat)
    requires t in {Result, Parameter, Run, SubRun, RunFlags, Flags} && i < |TableMap(t)|
    ensures TableMap(t)[i].1.table == t
  {
  }

  /** `TableMapColumn` for the analysis tables. */
  lemma AnalysisColumns(t: Table, i: nat)
    requires t in {Analysis, AnalysisCriteria, AnalysisDerivedData, AnalysisGraph, AnalysisAxisLabel}
    requires i < |TableMap(t)|
    ensures TableMap(t)[i].1.table == t
  {
  }

  /** The field names of a table map. */
  function Keys(t: Table): (r: seq<string>)
    ensures |r| == |TableMap(t)| && forall i :: 0 <= i < |r| ==> r[i] == TableMap(t)[i].0
  {
    seq(|TableMap(t)|, i requires 0 <= i < |TableMap(t)| => TableMap(t)[i].0)
  }

  /** `getTableMap(t).get(key)`: the column of a field, or `null` for an unknown field. */
  function Lookup(t: Table, key: string): (r: Option<Column>)
    ensures r.Some? <==> key in Keys(t)
    ensures r.Some? ==> exists i :: 0 <= i < |TableMap(t)| && TableMap(t)[i] == (key, r.value)
  {
    Find(TableMap(t), key)
  }

  /** The column of the first entry with the field name `key`. */
  function Find(m: seq<Entry>, key: string): (r: Option<Column>)
    ensures r.Some? <==> exists i :: 0 <= i < |m| && m[i].0 == key
    ensures r.Some? ==> exists i :: 0 <= i < |m| && m[i] == (key, r.value)
  {
    if m == [] then None
    else if m[0].0 == key then Some(m[0].1)
    else
      var r := Find(m[1..], key);
      assert forall i :: 0 < i < |m| ==> m[i] == m[1..][i - 1];
      r
  }

  /** `getSelectColumns(t)`: the default `select()` of every column, in the order of the
      table map. */
  function GetSelectColumns(t: Table): (r: seq<string>)
    ensures |r| == |TableMap(t)|
    ensures forall i :: 0 <= i < |r| ==> r[i] == Select(TableMap(t)[i].1, None, None)
  {
    seq(|TableMap(t)|, i requires 0 <= i < |TableMap(t)| => Select(TableMap(t)[i].1, None, None))
  }

  /** Each ordinary selected column is the table's reference, a dot and the column name. */
  lemma SelectColumnsQualified(t: Table, i: nat)
    requires i < |TableMap(t)| && !IsParameterValue(TableMap(t)[i].1)
    ensures GetSelectColumns(t)[i] == Reference(t) + "." + TableMap(t)[i].1.name
  {
    TableMapColumn(t, i);
  }

  // ---------------------------------------------------------------------------
  // Business keys and joins
  // ---------------------------------------------------------------------------

  /** `getBusinessKey(t)`: the fields a row is identified by, `null` for tables without one. */
  function BusinessKey(t: Table): Option<seq<string>> {
    match t
    case Analysis => Some(["creator", "notes", "dataPrivate", "date"])
    case Application => Some(["name", "versionMajor", "versionMinor", "versionBuild", "versionCode"])
    case Compiler => Some(["name", "vendor", "versionMajor", "versionMinor", "versionBuild"])
    case Flags => Some(["flag"])
    case Machine => Some(["name", "vendor"])
    case Mpi => Some(["name", "vendor", "versionMajor", "versionMinor", "versionBuild"])
    case OperatingSystem =>
      Some(["name", "versionMajor", "versionMinor", "versionBuild", "vendor", "versionBuildMinor", "kernel"])
    case Processor => Some(["name", "vendor", "architecture", "cores", "threadsPerCore", "clockSpeed"])
    case Run => Some(["runId"])
    case _ => None
  }

  /** Every business-key field is a field of the table's map. */
  lemma BusinessKeyMapped(t: Table)
    requires BusinessKey(t).Some?
    ensures forall k :: k in BusinessKey(t).value ==> Lookup(t, k).Some?
  {
    if t in {Analysis, Application, Compiler, Flags, Machine} {
      FirstBusinessKeysListed(t);
    } else {
      OtherBusinessKeysListed(t);
    }
  }

  /** The business keys of the first five tables that have one are field names. */
  lemma FirstBusinessKeysListed(t: Table)
    requires t in {Analysis, Application, Compiler, Flags, Machine}
    ensures forall k :: k in BusinessKey(t).value ==> k in Keys(t)
  {
    match t
    case Analysis => assert Keys(t) == BusinessKey(t).value;
    case Application => assert Keys(t)[..5] == BusinessKey(t).value;
    case Compiler => assert Keys(t) == BusinessKey(t).value;
    case Flags => assert Keys(t) == BusinessKey(t).value;
    case Machine => assert Keys(t) == BusinessKey(t).value;
  }

  /** The business keys of the other tables that have one are field names. */
  lemma OtherBusinessKeysListed(t: Table)
    requires BusinessKey(t).Some? && t !in {Analysis, Application, Compiler, Flags, Machine}
    ensures forall k :: k in BusinessKey(t).value ==> k in Keys(t)
  {
    match t
    case Mpi => assert Keys(t) == BusinessKey(t).value;
    case OperatingSystem =>
      assert Keys(t) == ["name", "vendor", "versionMajor", "versionMinor", "versionBuild", "versionBuildMinor", "kernel"];
    case Processor =>
      assert Keys(t) == ["name", "vendor", "architecture", "clockSpeed", "cores", "threadsPerCore"];
    case Run => assert Keys(t)[4] == "runId";
  }

  /** A run is identified by its run id alone, and an application by its name and its whole
      version, build number and code included. */
  lemma BusinessKeysOfRunAndApplication()
    ensures BusinessKey(Run) == Some(["runId"]) && Lookup(Run, "runId") == Some(Column(Run, "RunID", Some(StringType)))
    ensures "versionBuild" in BusinessKey(Application).value && "versionCode" in BusinessKey(Application).value
  {
    assert Keys(Run)[4] == "runId";
  }

  /** `joins.get(owner).get(target)`: the column of `target` holding the id of an `owner` row. */
  function JoinColumn(owner: Table, target: Table): Option<Column> {
    match (owner, target)
    case (Run, RunFlags) => Some(Column(RunFlags, "RunID", Some(LongType)))
    case (Run, SubRun) => Some(Column(SubRun, "ParentRun", Some(LongType)))
    case (Flags, RunFlags) => Some(Column(RunFlags, "FlagID", Some(LongType)))
    case (Application, Run) => Some(Column(Run, "Application", Some(LongType)))
    case (Compiler, Run) => Some(Column(Run, "Compiler", Some(LongType)))
    case (Machine, Run) => Some(Column(Run, "Machine", Some(LongType)))
    case (Mpi, Run) => Some(Column(Run, "MPI", Some(LongType)))
    case (OperatingSystem, Run) => Some(Column(Run, "OperatingSystem", Some(LongType)))
    case (Processor, Run) => Some(Column(Run, "Processor", Some(LongType)))
    case (SubRun, Parameter) => Some(Column(Parameter, "SubRunOwner", Some(LongType)))
    case (SubRun, Result) => Some(Column(Result, "SubRun", Some(LongType)))
    case (Analysis, AnalysisCriteria) => Some(Column(AnalysisCriteria, "AnalysisID", Some(LongType)))
    case (Analysis, AnalysisDerivedData) => Some(Column(AnalysisDerivedData, "AnalysisID", Some(LongType)))
    case (Analysis, AnalysisGraph) => Some(Column(AnalysisGraph, "AnalysisID", Some(LongType)))
    case (Analysis, AnalysisAxisLabel) => Some(Column(AnalysisAxisLabel, "AnalysisID", Some(LongType)))
    case _ => None
  }

  /** A join column is a `LONG` id column of the target table, never the parameter value,
      and no table is joined to itself. */
  lemma JoinColumnInTarget(owner: Table, target: Table)
    requires JoinColumn(owner, target).Some?
    ensures JoinColumn(owner, target).value.table == target && owner != target
    ensures JoinColumn(owner, target).value.colType == Some(LongType)
    ensures !IsParameterValue(JoinColumn(owner, target).value)
  {
  }
}
