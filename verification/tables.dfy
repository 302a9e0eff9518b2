/** The tables of the results database that the Python importer writes, each class's
    `TableName`. */
module Tables {
  datatype Table =
    | Application | Compiler | Machine | MPI | OperatingSystem | Processor | Flags | Run | SubRun
    | Parameter | Result

  /** The table's name in SQL text and in error messages. */
  function Name(t: Table): string {
    match t
    case Application => "Application"
    case Compiler => "Compiler"
    case Machine => "Machine"
    case MPI => "MPI"
    case OperatingSystem => "OperatingSystem"
    case Processor => "Processor"
    case Flags => "Flags"
    case Run => "Run"
    case SubRun => "SubRun"
    case Parameter => "Parameter"
    case Result => "Result"
  }
}
