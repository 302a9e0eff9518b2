/** The `JdbcTable` enum of the results application: the seventeen tables of the results
    database, each with its SQL table name, and the `FROM` fragments built from them. */
module JdbcTable {
  import JavaText

  datatype Table =
    | Application | Compiler | Machine | Mpi | OperatingSystem | Processor | Result | Parameter
    | Run | SubRun | RunFlags | Flags | Analysis | AnalysisCriteria | AnalysisDerivedData
    | AnalysisGraph | AnalysisAxisLabel

  /** `tableName()`: the table's name in the schema. */
  function TableName(t: Table): string {
    match t
    case Application => "Application"
    case Compiler => "Compiler"
    case Machine => "Machine"
    case Mpi => "MPI"
    case OperatingSystem => "OperatingSystem"
    case Processor => "Processor"
    case Result => "Result"
    case Parameter => "Parameter"
    case Run => "Run"
    case SubRun => "SubRun"
    case RunFlags => "RunFlags"
    case Flags => "Flags"
    case Analysis => "Analysis"
    case AnalysisCriteria => "AnalysisCriteria"
    case AnalysisDerivedData => "AnalysisDerivedData"
    case AnalysisGraph => "AnalysisGraph"
    case AnalysisAxisLabel => "AnalysisAxisLabel"
  }

  /** `tableReference()`: the Java constant's name in lower case (`SUB_RUN` gives
      `sub_run`), the alias every query uses. */
  function Reference(t: Table): string {
    match t
    case Application => "application"
    case Compiler => "compiler"
    case Machine => "machine"
    case Mpi => "mpi"
    case OperatingSystem => "operating_system"
    case Processor => "processor"
    case Result => "result"
    case Parameter => "parameter"
    case Run => "run"
    case SubRun => "sub_run"
    case RunFlags => "run_flags"
    case Flags => "flags"
    case Analysis => "analysis"
    case AnalysisCriteria => "analysis_critera"
    case AnalysisDerivedData => "analysis_derived_data"
    case AnalysisGraph => "analysis_graph"
    case AnalysisAxisLabel => "analysis_axis_label"
  }

  /** The table whose alias is `s`, if any. */
  function FromReference(s: string): (r: Table)
    requires s in References()
  {
    if s == "application" then Application
    else if s == "compiler" then Compiler
    else if s == "machine" then Machine
    else if s == "mpi" then Mpi
    else if s == "operating_system" then OperatingSystem
    else if s == "processor" then Processor
    else if s == "result" then Result
    else if s == "parameter" then Parameter
    else if s == "run" then Run
    else if s == "sub_run" then SubRun
    else if s == "run_flags" then RunFlags
    else if s == "flags" then Flags
    else if s == "analysis" then Analysis
    else if s == "analysis_critera" then AnalysisCriteria
    else if s == "analysis_derived_data" then AnalysisDerivedData
    else if s == "analysis_graph" then AnalysisGraph
    else AnalysisAxisLabel
  }

  /** Every alias. */
  function References(): set<string> {
    {"application", "compiler", "machine", "mpi", "operating_system", "processor", "result", "parameter", "run", "sub_run", "run_flags", "flags", "analysis", "analysis_critera", "analysis_derived_data", "analysis_graph", "analysis_axis_label"}
  }

  /** The table can be read back from its alias. */
  lemma ReferenceRoundTrip(t: Table)
    ensures Reference(t) in References() && FromReference(Reference(t)) == t
  {
  }

  /** `tableSelect()`: the table under its alias, `"<TableName> AS <reference>"`. */
  function TableSelect(t: Table): (r: string)
    ensures JavaText.StartsWith(r, TableName(t) + " AS ")
    ensures JavaText.EndsWith(r, Reference(t))
    ensures |r| == |TableName(t)| + 4 + |Reference(t)|
  {
    TableName(t) + " AS " + Reference(t)
  }

  /** No two tables share an alias. */
  lemma ReferenceInjective(a: Table, b: Table)
    requires Reference(a) == Reference(b)
    ensures a == b
  {
    ReferenceRoundTrip(a);
    ReferenceRoundTrip(b);
  }
}
