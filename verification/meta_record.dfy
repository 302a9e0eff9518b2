/** A metadata record of any of the six types, as a run holds it. */
module MetaRecord {
  import MetaData
  import Application
  import Compiler
  import Mpi
  import Machine
  import OperatingSystem
  import Processor

  datatype Meta =
    | AppMeta(app: Application.Application)
    | CompilerMeta(compiler: Compiler.Compiler)
    | MpiMeta(mpi: Mpi.Mpi)
    | MachineMeta(machine: Machine.Machine)
    | OsMeta(os: OperatingSystem.OperatingSystem)
    | ProcessorMeta(processor: Processor.Processor)

  /** `getType`. */
  function TypeOf(m: Meta): MetaData.Type {
    match m
    case AppMeta(_) => MetaData.Application
    case CompilerMeta(_) => MetaData.Compiler
    case MpiMeta(_) => MetaData.Mpi
    case MachineMeta(_) => MetaData.Machine
    case OsMeta(_) => MetaData.OperatingSystem
    case ProcessorMeta(_) => MetaData.Processor
  }
}
