/** The six kinds of metadata attached to a run, their names, and the field tables of the
    metadata records. A field holds a string, an integer or a boolean, or is null. */
module MetaData {
  import opened Wrappers
  import JavaText

  datatype Type = Application | Compiler | Mpi | Machine | OperatingSystem | Processor

  /** The constants in declaration order. */
  const Types: seq<Type> := [Application, Compiler, Mpi, Machine, OperatingSystem, Processor]

  /** The enum constant's own name, as `Type.valueOf` expects it. */
  function EnumName(t: Type): string {
    match t
    case Application => "APPLICATION"
    case Compiler => "COMPILER"
    case Mpi => "MPI"
    case Machine => "MACHINE"
    case OperatingSystem => "OPERATING_SYSTEM"
    case Processor => "PROCESSOR"
  }

  /** The name shown in table headers. */
  function DisplayName(t: Type): (r: string)
    ensures r != []
  {
    match t
    case Application => "Application"
    case Compiler => "Compiler"
    case Mpi => "MPI"
    case Machine => "Machine"
    case OperatingSystem => "Operating System"
    case Processor => "Processor"
  }

  /** The name under which a run exposes this metadata as a field. */
  function FieldName(t: Type): (r: string)
    ensures r != []
  {
    match t
    case Application => "application"
    case Compiler => "compiler"
    case Mpi => "mpi"
    case Machine => "machine"
    case OperatingSystem => "operatingSystem"
    case Processor => "processor"
  }

  /** `Type.valueOf`: the constant with the given name; any other text is an
      `IllegalArgumentException`. */
  function ValueOf(s: string): (r: Result<Type>)
    ensures r.Success? ==> EnumName(r.value) == s
  {
    if s == "APPLICATION" then Success(Application)
    else if s == "COMPILER" then Success(Compiler)
    else if s == "MPI" then Success(Mpi)
    else if s == "MACHINE" then Success(Machine)
    else if s == "OPERATING_SYSTEM" then Success(OperatingSystem)
    else if s == "PROCESSOR" then Success(Processor)
    else Failure("No enum constant MetaData.Type." + s)
  }

  /** The position of a type in declaration order. */
  function Ordinal(t: Type): (r: nat)
    ensures r < |Types| && Types[r] == t
  {
    match t
    case Application => 0
    case Compiler => 1
    case Mpi => 2
    case Machine => 3
    case OperatingSystem => 4
    case Processor => 5
  }

  /** Every type is listed once, and the three names each tell the types apart. */
  lemma TypeTable()
    ensures |Types| == 6 && forall t :: t in Types
    ensures forall i, j :: 0 <= i < j < |Types| ==> Types[i] != Types[j]
    ensures forall a, b :: DisplayName(a) == DisplayName(b) ==> a == b
    ensures forall a, b :: FieldName(a) == FieldName(b) ==> a == b
    ensures forall a, b :: EnumName(a) == EnumName(b) ==> a == b
  {
    forall t: Type ensures t in Types {
      assert Types[Ordinal(t)] == t;
    }
  }

  /** `valueOf` accepts exactly the enum names. */
  lemma ValueOfEnumName(t: Type)
    ensures ValueOf(EnumName(t)) == Success(t)
  {
  }

  // ---------------------------------------------------------------------------
  // Field values and field tables
  // ---------------------------------------------------------------------------

  datatype Datum = Text(s: string) | Int(n: int) | Flag(b: bool)

  datatype FieldClass = StringClass | IntegerClass | BooleanClass

  /** `prefix + text` when the text is non-null, else nothing: the optional pieces of the
      records' display names. */
  function Part(prefix: string, o: Option<string>): (r: string)
    ensures o.None? ==> r == ""
    ensures o.Some? ==> r == prefix + o.value
  {
    if o.Some? then prefix + o.value else ""
  }

  /** The same for an `Integer`, printed in decimal, with a suffix after it. */
  function IntPart(prefix: string, o: Option<int>, suffix: string): (r: string)
    ensures o.None? ==> r == ""
    ensures o.Some? ==> r == prefix + JavaText.IntToString(o.value) + suffix
  {
    if o.Some? then prefix + JavaText.IntToString(o.value) + suffix else ""
  }

  /** A field table: the field names in order, each with its declared class. */
  datatype Table = Table(names: seq<string>, classes: seq<FieldClass>)

  /** A record's fields by name; a Java `null` is `None`. */
  type DataMap = map<string, Option<Datum>>

  predicate HasClass(d: Option<Datum>, c: FieldClass) {
    match d
    case None => true
    case Some(Text(_)) => c == StringClass
    case Some(Int(_)) => c == IntegerClass
    case Some(Flag(_)) => c == BooleanClass
  }

  function TextDatum(o: Option<string>): (r: Option<Datum>)
    ensures HasClass(r, StringClass)
  {
    if o.Some? then Some(Text(o.value)) else None
  }

  function IntDatum(o: Option<int>): (r: Option<Datum>)
    ensures HasClass(r, IntegerClass)
  {
    if o.Some? then Some(Int(o.value)) else None
  }

  function FlagDatum(o: Option<bool>): (r: Option<Datum>)
    ensures HasClass(r, BooleanClass)
  {
    if o.Some? then Some(Flag(o.value)) else None
  }

  /** `(String) fields.get(key)`: a missing key or a null reads as null, a value of
      another class is a `ClassCastException`. */
  function CastText(m: DataMap, key: string): (r: Result<Option<string>>)
    ensures r.Success? <==> key !in m || HasClass(m[key], StringClass)
    ensures r.Success? ==> TextDatum(r.value) == (if key in m then m[key] else None)
  {
    if key !in m || m[key].None? then Success(None)
    else if m[key].value.Text? then Success(Some(m[key].value.s))
    else Failure("ClassCastException: " + key)
  }

  /** `(Integer) fields.get(key)`. */
  /** A text entry casts back to its text. */
  lemma CastTextOf(m: DataMap, key: string, v: Option<string>)
    requires key in m && m[key] == TextDatum(v)
    ensures CastText(m, key) == Success(v)
  {
  }

  /** An integer entry casts back to its integer. */
  lemma CastIntOf(m: DataMap, key: string, v: Option<int>)
    requires key in m && m[key] == IntDatum(v)
    ensures CastInt(m, key) == Success(v)
  {
  }

  function CastInt(m: DataMap, key: string): (r: Result<Option<int>>)
    ensures r.Success? <==> key !in m || HasClass(m[key], IntegerClass)
    ensures r.Success? ==> IntDatum(r.value) == (if key in m then m[key] else None)
  {
    if key !in m || m[key].None? then Success(None)
    else if m[key].value.Int? then Success(Some(m[key].value.n))
    else Failure("ClassCastException: " + key)
  }

  /** `(Boolean) fields.get(key)`. */
  function CastFlag(m: DataMap, key: string): (r: Result<Option<bool>>)
    ensures r.Success? <==> key !in m || HasClass(m[key], BooleanClass)
    ensures r.Success? ==> FlagDatum(r.value) == (if key in m then m[key] else None)
  {
    if key !in m || m[key].None? then Success(None)
    else if m[key].value.Flag? then Success(Some(m[key].value.b))
    else Failure("ClassCastException: " + key)
  }

  /** Every field the map holds has the class the table declares for it. */
  predicate Conforms(m: DataMap, table: Table)
    requires |table.names| == |table.classes|
  {
    forall i :: 0 <= i < |table.names| && table.names[i] in m ==>
      HasClass(m[table.names[i]], table.classes[i])
  }

  const ApplicationFields: Table := Table(
    ["name", "versionMajor", "versionMinor", "versionBuild", "versionCode", "description",
     "dataPrivate"],
    [StringClass, IntegerClass, IntegerClass, IntegerClass, StringClass, StringClass,
     BooleanClass])

  const CompilerFields: Table := Table(
    ["name", "vendor", "versionMajor", "versionMinor", "versionBuild"],
    [StringClass, StringClass, IntegerClass, IntegerClass, IntegerClass])

  const MachineFields: Table := Table(["name", "vendor"], [StringClass, StringClass])

  const MpiFields: Table := Table(
    ["name", "vendor", "versionMajor", "versionMinor", "versionBuild"],
    [StringClass, StringClass, IntegerClass, IntegerClass, IntegerClass])

  const OperatingSystemFields: Table := Table(
    ["name", "vendor", "versionMajor", "versionMinor", "versionBuild", "versionBuildMinor",
     "kernel"],
    [StringClass, StringClass, IntegerClass, IntegerClass, IntegerClass, IntegerClass,
     StringClass])

  const ProcessorFields: Table := Table(
    ["name", "vendor", "architecture", "cores", "threadsPerCore", "clockSpeed"],
    [StringClass, StringClass, StringClass, IntegerClass, IntegerClass, IntegerClass])

  /** `Type.getFields`: the ordered field table of the type's record class. Every table
      starts with the name, and every one but the application's continues with the
      vendor. */
  function GetFields(t: Type): (r: Table)
    ensures |r.names| == |r.classes| >= 2
    ensures r.names[0] == "name" && r.classes[0] == StringClass
    ensures t != Application ==> r.names[1] == "vendor" && r.classes[1] == StringClass
  {
    match t
    case Application => ApplicationFields
    case Compiler => CompilerFields
    case Machine => MachineFields
    case Mpi => MpiFields
    case OperatingSystem => OperatingSystemFields
    case Processor => ProcessorFields
  }
}
