/** Loading a PMTM timing file: the header check, the loop over the remaining lines with
    its metadata section, and the assembly of the run. The file's lines, the date parser
    and the file's MD5 sum are parameters. */
module PmtmLoad {
  import opened Wrappers
  import JavaText
  import PmtmVersion
  import PmtmFactory
  import LineLoop
  import Value
  import Rank
  import RunData
  import Run
  import MetaData
  import MetaRecord
  import Compiler
  import Mpi
  import Machine
  import OperatingSystem
  import Processor

  type Version = PmtmVersion.Version

  // ---------------------------------------------------------------------------
  // Header metadata
  // ---------------------------------------------------------------------------

  /** What the header lines have said so far; every field starts out null. */
  datatype PmtmMeta = PmtmMeta(
    date: Option<string>,
    time: Option<string>,
    runId: Option<string>,
    nprocs: Option<int>,
    applicationName: Option<string>,
    tag: Option<string>,
    os: Option<OperatingSystem.OperatingSystem>,
    compiler: Option<Compiler.Compiler>,
    mpi: Option<Mpi.Mpi>,
    machine: Option<Machine.Machine>,
    processor: Option<Processor.Processor>)

  const NoMeta: PmtmMeta := PmtmMeta(None, None, None, None, None, None, None, None, None, None, None)

  /** The field a metadata line sets. `OS` and `System` both set the operating system. */
  datatype MetaField =
    | AppField | DateField | TimeField | RunIdField | NProcsField | TagField
    | OsField | CompilerField | MpiField | MachineField | ProcessorField

  /** The metadata tags, each with the field it sets. */
  function FieldOf(tag: string): (r: Option<MetaField>)
    ensures r == Some(OsField) <==> tag == "OS" || tag == "System"
  {
    if tag == "Application" then Some(AppField)
    else if tag == "Date" then Some(DateField)
    else if tag == "Time" then Some(TimeField)
    else if tag == "Run ID" then Some(RunIdField)
    else if tag == "NProcs" then Some(NProcsField)
    else if tag == "Tag" then Some(TagField)
    else if tag == "OS" || tag == "System" then Some(OsField)
    else if tag == "Compiler" then Some(CompilerField)
    else if tag == "MPI" then Some(MpiField)
    else if tag == "Machine" then Some(MachineField)
    else if tag == "Processor" then Some(ProcessorField)
    else None
  }

  /** The metadata with one field reset to null. */
  function Forget(m: PmtmMeta, f: MetaField): PmtmMeta {
    match f
    case AppField => m.(applicationName := None)
    case DateField => m.(date := None)
    case TimeField => m.(time := None)
    case RunIdField => m.(runId := None)
    case NProcsField => m.(nprocs := None)
    case TagField => m.(tag := None)
    case OsField => m.(os := None)
    case CompilerField => m.(compiler := None)
    case MpiField => m.(mpi := None)
    case MachineField => m.(machine := None)
    case ProcessorField => m.(processor := None)
  }

  /** The fields a metadata line stores as plain text, and where they live. */
  predicate IsTextField(f: MetaField) {
    f in {AppField, DateField, TimeField, RunIdField, TagField}
  }

  function TextOf(m: PmtmMeta, f: MetaField): Option<string>
    requires IsTextField(f)
  {
    match f
    case AppField => m.applicationName
    case DateField => m.date
    case TimeField => m.time
    case RunIdField => m.runId
    case TagField => m.tag
  }

  // ---------------------------------------------------------------------------
  // Tokens
  // ---------------------------------------------------------------------------

  /** `getStringFromTokens`: the token, or null past the end. */
  function StringToken(t: seq<string>, i: nat): (r: Option<string>)
    ensures r.Some? <==> i < |t|
    ensures r.Some? ==> r.value == t[i]
  {
    if i < |t| then Some(t[i]) else None
  }

  /** `getIntegerFromTokens`: the token read by `Integer.parseInt`, or null past the end.
      Text that is not an `int` is a `NumberFormatException`. */
  function IntegerToken(t: seq<string>, i: nat): (r: Result<Option<int>>)
    ensures i >= |t| ==> r == Success(None)
    ensures i < |t| ==> (r.Success? <==> JavaText.ParseInt(t[i]).Some?)
    ensures i < |t| && r.Success? ==> r.value == JavaText.ParseInt(t[i])
  {
    if i >= |t| then Success(None)
    else match JavaText.ParseInt(t[i])
      case Some(n) => Success(Some(n))
      case None => Failure("NumberFormatException: " + t[i])
  }

  /** `getVersionPartFromTokens`: part `part` of the version in token `i`; a missing token
      reads as 0. */
  function VersionPartToken(t: seq<string>, i: nat, part: nat): (r: Result<int>)
    ensures i >= |t| ==> r == Success(0)
  {
    PmtmFactory.VersionPart(StringToken(t, i), part)
  }

  /** An operating system line: vendor token 2, name token 3, a four-part version in
      token 4 and the kernel in token 5. */
  function ReadOs(t: seq<string>): (r: Result<OperatingSystem.OperatingSystem>)
    ensures r.Success? <==> VersionPartToken(t, 4, 0).Success? && VersionPartToken(t, 4, 1).Success?
                            && VersionPartToken(t, 4, 2).Success? && VersionPartToken(t, 4, 3).Success?
    ensures r.Success? ==> r.value.name == StringToken(t, 3) && r.value.vendor == StringToken(t, 2)
                           && r.value.kernel == StringToken(t, 5)
    ensures r.Success? ==> r.value.versionMajor == Some(VersionPartToken(t, 4, 0).value)
                           && r.value.versionMinor == Some(VersionPartToken(t, 4, 1).value)
                           && r.value.versionBuild == Some(VersionPartToken(t, 4, 2).value)
                           && r.value.versionBuildMinor == Some(VersionPartToken(t, 4, 3).value)
  {
    var a :- VersionPartToken(t, 4, 0);
    var b :- VersionPartToken(t, 4, 1);
    var c :- VersionPartToken(t, 4, 2);
    var d :- VersionPartToken(t, 4, 3);
    Success(OperatingSystem.OperatingSystem(StringToken(t, 3), StringToken(t, 2),
                                            Some(a), Some(b), Some(c), Some(d), StringToken(t, 5)))
  }

  /** The three version parts of a compiler or MPI line, from token 4. */
  function ReadVersion3(t: seq<string>): (r: Result<(int, int, int)>)
    ensures r.Success? <==> VersionPartToken(t, 4, 0).Success? && VersionPartToken(t, 4, 1).Success?
                            && VersionPartToken(t, 4, 2).Success?
    ensures r.Success? ==> r.value == (VersionPartToken(t, 4, 0).value, VersionPartToken(t, 4, 1).value,
                                       VersionPartToken(t, 4, 2).value)
  {
    var a :- VersionPartToken(t, 4, 0);
    var b :- VersionPartToken(t, 4, 1);
    var c :- VersionPartToken(t, 4, 2);
    Success((a, b, c))
  }

  /** A compiler line: vendor token 2, name token 3, version token 4. */
  function ReadCompiler(t: seq<string>): (r: Result<Compiler.Compiler>)
    ensures r.Success? <==> ReadVersion3(t).Success?
    ensures r.Success? ==> r.value.name == StringToken(t, 3) && r.value.vendor == StringToken(t, 2)
    ensures r.Success? ==> var v := ReadVersion3(t).value;
              r.value.versionMajor == Some(v.0) && r.value.versionMinor == Some(v.1)
              && r.value.versionBuild == Some(v.2)
  {
    var v :- ReadVersion3(t);
    Success(Compiler.Compiler(StringToken(t, 3), StringToken(t, 2), Some(v.0), Some(v.1), Some(v.2)))
  }

  /** An MPI line: laid out as a compiler line. */
  function ReadMpi(t: seq<string>): (r: Result<Mpi.Mpi>)
    ensures r.Success? <==> ReadVersion3(t).Success?
    ensures r.Success? ==> r.value.name == StringToken(t, 3) && r.value.vendor == StringToken(t, 2)
    ensures r.Success? ==> var v := ReadVersion3(t).value;
              r.value.versionMajor == Some(v.0) && r.value.versionMinor == Some(v.1)
              && r.value.versionBuild == Some(v.2)
  {
    var v :- ReadVersion3(t);
    Success(Mpi.Mpi(StringToken(t, 3), StringToken(t, 2), Some(v.0), Some(v.1), Some(v.2)))
  }

  /** A machine line: before version 2.2.0 there is no vendor and token 2 is the name;
      from it the vendor is token 2 and the name token 3. */
  function ReadMachine(t: seq<string>, v: Version): (r: Machine.Machine)
    ensures PmtmVersion.IsEarlierThan(v, PmtmVersion.V2_2_0) ==>
              r.name == StringToken(t, 2) && r.vendor.None?
    ensures PmtmVersion.IsLaterThanOrEqualTo(v, PmtmVersion.V2_2_0) ==>
              r.name == StringToken(t, 3) && r.vendor == StringToken(t, 2)
  {
    if PmtmVersion.IsEarlierThan(v, PmtmVersion.V2_2_0) then Machine.Machine(StringToken(t, 2), None)
    else Machine.Machine(StringToken(t, 3), StringToken(t, 2))
  }

  /** A processor line: vendor token 2, name 3, architecture 4, clock speed 5, cores 6
      and threads per core 7; the integers are read in that order of arguments, and the
      clock speed as written or as intended. */
  function ReadProcessor(t: seq<string>, asWritten: bool): (r: Result<Processor.Processor>)
    ensures r.Success? <==> IntegerToken(t, 6).Success? && IntegerToken(t, 7).Success?
                            && PmtmFactory.ClockSpeedIn(t, 5, asWritten).Success?
    ensures r.Success? ==> r.value.name == StringToken(t, 3) && r.value.vendor == StringToken(t, 2)
                           && r.value.architecture == StringToken(t, 4)
    ensures r.Success? ==> r.value.cores == IntegerToken(t, 6).value
                           && r.value.threadsPerCore == IntegerToken(t, 7).value
                           && r.value.clockSpeed == PmtmFactory.ClockSpeedIn(t, 5, asWritten).value
  {
    var cores :- IntegerToken(t, 6);
    var threads :- IntegerToken(t, 7);
    var clock :- PmtmFactory.ClockSpeedIn(t, 5, asWritten);
    Success(Processor.Processor(StringToken(t, 3), StringToken(t, 2), StringToken(t, 4),
                                cores, threads, clock))
  }

  /** The versions whose processor lines were written wrongly and are skipped. */
  predicate SkipsProcessor(v: Option<Version>) {
    v == Some(PmtmVersion.V2_3_0) || v == Some(PmtmVersion.V2_2_1)
  }

  /** `processMetaData`: stores what one metadata line says; an unknown tag is an error. */
  function ProcessMetaData(line: string, v: Option<Version>, m: PmtmMeta, asWritten: bool): (r: Result<PmtmMeta>)
    ensures var t := JavaText.SplitComma(line);
            r.Success? ==> t != [] && FieldOf(t[0]).Some?
    ensures var t := JavaText.SplitComma(line);
            t != [] && FieldOf(t[0]).Some? ==> r == SetField(t, FieldOf(t[0]).value, v, m, asWritten)
  {
    var t := JavaText.SplitComma(line);
    if t == [] then Failure("ArrayIndexOutOfBoundsException: 0")
    else match FieldOf(t[0])
      case None => Failure("IOException: Unknown meta data line: " + line)
      case Some(f) => SetField(t, f, v, m, asWritten)
  }

  /** Stores the field `f` from the tokens of its line, leaving the others alone. A line
      for an operating system, compiler or MPI library whose version cannot be read leaves
      that field as it was too; a machine line needs the file's version; processor lines
      of the two versions that wrote them wrongly are skipped. */
  function SetField(t: seq<string>, f: MetaField, v: Option<Version>, m: PmtmMeta, asWritten: bool): (r: Result<PmtmMeta>)
    ensures r.Success? ==> Forget(r.value, f) == Forget(m, f)
    ensures IsTextField(f) ==> r.Success? && TextOf(r.value, f) == StringToken(t, 2)
    ensures f == NProcsField ==> (r.Success? <==> IntegerToken(t, 2).Success?)
                                 && (r.Success? ==> r.value.nprocs == IntegerToken(t, 2).value)
    ensures f == OsField ==>
              r.Success? && r.value.os == (if ReadOs(t).Success? then Some(ReadOs(t).value) else m.os)
    ensures f == CompilerField ==>
              r.Success? && r.value.compiler == (if ReadCompiler(t).Success? then Some(ReadCompiler(t).value) else m.compiler)
    ensures f == MpiField ==>
              r.Success? && r.value.mpi == (if ReadMpi(t).Success? then Some(ReadMpi(t).value) else m.mpi)
    ensures f == MachineField ==> (r.Success? <==> v.Some?)
                                  && (r.Success? ==> r.value.machine == Some(ReadMachine(t, v.value)))
    ensures f == ProcessorField && SkipsProcessor(v) ==> r == Success(m)
    ensures f == ProcessorField && !SkipsProcessor(v) ==>
              (r.Success? <==> ReadProcessor(t, asWritten).Success?)
              && (r.Success? ==> r.value.processor == Some(ReadProcessor(t, asWritten).value))
  {
    match f
    case AppField => Success(m.(applicationName := StringToken(t, 2)))
    case DateField => Success(m.(date := StringToken(t, 2)))
    case TimeField => Success(m.(time := StringToken(t, 2)))
    case RunIdField => Success(m.(runId := StringToken(t, 2)))
    case TagField => Success(m.(tag := StringToken(t, 2)))
    case NProcsField =>
      var n :- IntegerToken(t, 2);
      Success(m.(nprocs := n))
    case OsField =>
      Success(match ReadOs(t) case Success(o) => m.(os := Some(o)) case Failure(_) => m)
    case CompilerField =>
      Success(match ReadCompiler(t) case Success(c) => m.(compiler := Some(c)) case Failure(_) => m)
    case MpiField =>
      Success(match ReadMpi(t) case Success(c) => m.(mpi := Some(c)) case Failure(_) => m)
    case MachineField =>
      if v.None? then Failure("NullPointerException")
      else Success(m.(machine := Some(ReadMachine(t, v.value))))
    case ProcessorField =>
      if SkipsProcessor(v) then Success(m)
      else
        var p :- ReadProcessor(t, asWritten);
        Success(m.(processor := Some(p)))
  }

  /** A version written as plain dotted numbers gives those numbers, whatever follows. */
  lemma OsVersionOfJoin(t: seq<string>, parts: seq<string>)
    requires 4 < |t| && t[4] == JavaText.Join(parts, ".")
    requires parts != [] && forall k :: 0 <= k < |parts| ==> PmtmFactory.IsIntDigits(parts[k])
    ensures ReadOs(t).Success?
    ensures PmtmFactory.IsIntDigits(parts[0])
            && ReadOs(t).value.versionMajor == Some(JavaText.DigitsValue(parts[0]))
    ensures |parts| > 1 ==>
              PmtmFactory.IsIntDigits(parts[1]) && ReadOs(t).value.versionMinor == Some(JavaText.DigitsValue(parts[1]))
    ensures |parts| > 2 ==>
              PmtmFactory.IsIntDigits(parts[2]) && ReadOs(t).value.versionBuild == Some(JavaText.DigitsValue(parts[2]))
    ensures |parts| <= 3 ==> ReadOs(t).value.versionBuildMinor == Some(0)
  {
    PmtmFactory.VersionPartOfJoin(parts, 0);
    PmtmFactory.VersionPartOfJoin(parts, 1);
    PmtmFactory.VersionPartOfJoin(parts, 2);
    PmtmFactory.VersionPartOfJoin(parts, 3);
  }

  /** A compiler line without a version token reads as version 0.0.0, not as null. */
  lemma CompilerWithoutVersion(t: seq<string>)
    requires |t| <= 4
    ensures ReadCompiler(t).Success?
    ensures ReadCompiler(t).value.versionMajor == Some(0) && ReadCompiler(t).value.versionMinor == Some(0)
            && ReadCompiler(t).value.versionBuild == Some(0)
  {
  }

  /** The three-part version of a compiler or MPI line written as dotted integers reads
      back those integers, missing parts as 0. */
  lemma Version3OfJoin(t: seq<string>, parts: seq<string>)
    requires 4 < |t| && t[4] == JavaText.Join(parts, ".")
    requires parts != [] && forall k :: 0 <= k < |parts| ==> PmtmFactory.IsIntDigits(parts[k])
    ensures ReadVersion3(t).Success?
    ensures PmtmFactory.IsIntDigits(parts[0]) && ReadVersion3(t).value.0 == JavaText.DigitsValue(parts[0])
    ensures |parts| > 1 ==>
              PmtmFactory.IsIntDigits(parts[1]) && ReadVersion3(t).value.1 == JavaText.DigitsValue(parts[1])
    ensures |parts| > 2 ==>
              PmtmFactory.IsIntDigits(parts[2]) && ReadVersion3(t).value.2 == JavaText.DigitsValue(parts[2])
    ensures |parts| == 1 ==> ReadVersion3(t).value.1 == 0 && ReadVersion3(t).value.2 == 0
    ensures |parts| == 2 ==> ReadVersion3(t).value.2 == 0
  {
    PmtmFactory.VersionPartOfJoin(parts, 0);
    PmtmFactory.VersionPartOfJoin(parts, 1);
    PmtmFactory.VersionPartOfJoin(parts, 2);
  }

  /** Compiler, MPI and operating system lines share one layout: an MPI line reads exactly
      when the same tokens read as a compiler, to the same fields, and an operating system
      line that reads carries the same first three version parts. */
  lemma SharedLayout(t: seq<string>)
    ensures ReadMpi(t).Success? <==> ReadCompiler(t).Success?
    ensures ReadMpi(t).Success? ==>
              var m, c := ReadMpi(t).value, ReadCompiler(t).value;
              m.name == c.name && m.vendor == c.vendor && m.versionMajor == c.versionMajor
              && m.versionMinor == c.versionMinor && m.versionBuild == c.versionBuild
    ensures ReadOs(t).Success? ==>
              ReadCompiler(t).Success? && ReadOs(t).value.vendor == ReadCompiler(t).value.vendor
              && ReadOs(t).value.versionMajor == ReadCompiler(t).value.versionMajor
              && ReadOs(t).value.versionMinor == ReadCompiler(t).value.versionMinor
              && ReadOs(t).value.versionBuild == ReadCompiler(t).value.versionBuild
  {
  }

  /** A machine written in the layout of its version reads back: before 2.2.0 only the
      name, from 2.2.0 on the name and the vendor; and every version falls in exactly one
      of the two layouts. */
  lemma MachineLineRoundTrip(m: Machine.Machine, v: Version, tag: string, key: string)
    requires m.name.Some?
    ensures PmtmVersion.IsEarlierThan(v, PmtmVersion.V2_2_0) != PmtmVersion.IsLaterThanOrEqualTo(v, PmtmVersion.V2_2_0)
    ensures PmtmVersion.IsEarlierThan(v, PmtmVersion.V2_2_0) ==>
              ReadMachine([tag, key, m.name.value], v) == m.(vendor := None)
    ensures PmtmVersion.IsLaterThanOrEqualTo(v, PmtmVersion.V2_2_0) && m.vendor.Some? ==>
              ReadMachine([tag, key, m.vendor.value, m.name.value], v) == m
  {
    PmtmVersion.OrderLaws(v, PmtmVersion.V2_2_0, v);
  }

  // ---------------------------------------------------------------------------
  // The line loop
  // ---------------------------------------------------------------------------

  /** What the first token of a non-blank line makes of it. */
  datatype LineKind =
    | VersionLine | MetaLine(f: MetaField) | TypeLine | OverheadLine | ParameterLine
    | TimerLine | EndLine | FlagsLine | EnvironLine | UnknownLine

  function KindOf(tag: string): (k: LineKind)
    ensures k.MetaLine? <==> FieldOf(tag).Some?
    ensures k.MetaLine? ==> k.f == FieldOf(tag).value
    ensures k == VersionLine <==> tag == PmtmFactory.VersionTag
    ensures k == TypeLine <==> tag == "#Type"
    ensures k == EndLine <==> tag == "End of File"
  {
    if FieldOf(tag).Some? then MetaLine(FieldOf(tag).value)
    else if tag == PmtmFactory.VersionTag then VersionLine
    else if tag == "#Type" then TypeLine
    else if tag == "Overhead" then OverheadLine
    else if tag == "Parameter" then ParameterLine
    else if tag == "Timer" then TimerLine
    else if tag == "End of File" then EndLine
    else if tag == "Flags" then FlagsLine
    else if tag == "Environ" then EnvironLine
    else UnknownLine
  }

  /** The loader's state between lines. */
  datatype State = State(
    version: Option<Version>,
    inMeta: bool,
    ended: bool,
    flags: Option<seq<string>>,
    meta: PmtmMeta,
    parameters: seq<Value.Value>,
    results: seq<Value.Value>)

  /** Before the second line: no version yet, in the metadata section, not ended. */
  const Start: State := State(None, true, false, None, NoMeta, [], [])

  /** A line that trims to nothing is skipped. */
  predicate IsBlank(line: string) {
    JavaText.Trim(line) == ""
  }

  /** A line as the loop sees it: blank, without a first token (nothing but commas), or
      split into tokens with the kind its first token gives it. */
  datatype Classified = BlankLine | NoTokens | Tokens(t: seq<string>, k: LineKind)

  function Classify(line: string): (c: Classified)
    ensures c.BlankLine? <==> IsBlank(line)
    ensures c.Tokens? ==> c.t == JavaText.SplitComma(line) && c.t != [] && c.k == KindOf(c.t[0])
  {
    if IsBlank(line) then BlankLine
    else
      var t := JavaText.SplitComma(line);
      if t == [] then NoTokens else Tokens(t, KindOf(t[0]))
  }

  /** The kind of a line that has a first token. */
  function KindOfLine(line: string): Option<LineKind> {
    var c := Classify(line);
    if c.Tokens? then Some(c.k) else None
  }

  /** What a line can do to the state: the section flags only ever close, the parameters
      and results only grow. */
  predicate Grows(s: State, u: State) {
    (s.ended ==> u.ended) && (!s.inMeta ==> !u.inMeta)
    && s.parameters <= u.parameters && s.results <= u.results
  }

  /** One pass of the loop body. Only a version line changes the version and only an
      end-of-file line sets the end marker; every line adds at most one value. */
  function Step(s: State, line: string, asWritten: bool): (r: Result<State>)
    ensures IsBlank(line) ==> r == Success(s)
    ensures Classify(line).NoTokens? ==> r.Failure?
    ensures Classify(line).Tokens? ==> r == StepKind(s, line, Classify(line).t, Classify(line).k, asWritten)
    ensures r.Success? ==> Grows(s, r.value)
    ensures r.Success? && KindOfLine(line) != Some(VersionLine) ==> r.value.version == s.version
    ensures r.Success? && KindOfLine(line) != Some(EndLine) ==> r.value.ended == s.ended
    ensures r.Success? ==> |r.value.parameters| <= |s.parameters| + 1
  {
    match Classify(line)
    case BlankLine => Success(s)
    case NoTokens => Failure("ArrayIndexOutOfBoundsException: 0")
    case Tokens(t, k) => StepKind(s, line, t, k, asWritten)
  }

  /** The switch on the first token. A metadata line after `#Type` or the end marker, or
      an overhead line before `#Type` or after the end marker, is an error; before version
      0.2 a `Time` line also closes the metadata section. Data lines need the version. */
  function StepKind(s: State, line: string, t: seq<string>, k: LineKind, asWritten: bool): (r: Result<State>)
    ensures k.MetaLine? && (s.ended || !s.inMeta) ==> r.Failure?
    ensures k == OverheadLine && (s.ended || s.inMeta) ==> r.Failure?
    ensures k == UnknownLine ==> r.Failure?
    ensures k == TypeLine ==> r == Success(s.(inMeta := false))
    ensures k == EndLine ==> r == Success(s.(ended := true))
    ensures r.Success? ==> Grows(s, r.value)
    ensures r.Success? && k != VersionLine ==> r.value.version == s.version
    ensures r.Success? && k != EndLine ==> r.value.ended == s.ended
    ensures r.Success? ==> |r.value.parameters| <= |s.parameters| + 1
  {
    match k
    case VersionLine =>
      var v :- PmtmFactory.GetVersion(line, asWritten);
      Success(s.(version := Some(v)))
    case MetaLine(f) => StepMeta(s, line, f, asWritten)
    case TypeLine => Success(s.(inMeta := false))
    case OverheadLine =>
      if s.ended || s.inMeta then Failure("IOException: Overhead line found in header: " + line)
      else StepData(s, line, k, asWritten)
    case ParameterLine => StepData(s, line, k, asWritten)
    case TimerLine => StepData(s, line, k, asWritten)
    case EndLine => Success(s.(ended := true))
    case FlagsLine => Success(if |t| > 2 then s.(flags := Some(t[2..])) else s)
    case EnvironLine => Success(s)
    case UnknownLine => Failure("IOException: Invalid line found in PMTM file: " + line)
  }

  /** A metadata line in the header. */
  function StepMeta(s: State, line: string, f: MetaField, asWritten: bool): (r: Result<State>)
    ensures s.ended || !s.inMeta ==> r.Failure?
    ensures r.Success? ==> r.value.(meta := s.meta, inMeta := s.inMeta) == s
    ensures r.Success? ==> ProcessMetaData(line, s.version, s.meta, asWritten) == Success(r.value.meta)
    ensures r.Success? ==> (!r.value.inMeta <==> f == TimeField && s.version.Some?
                                                 && PmtmVersion.IsEarlierThan(s.version.value, PmtmVersion.V0_2))
    ensures r.Success? ==> Grows(s, r.value)
  {
    if s.ended || !s.inMeta then Failure("IOException: Meta data line found not in header: " + line)
    else
      var m :- ProcessMetaData(line, s.version, s.meta, asWritten);
      var closes := f == TimeField && s.version.Some?
                     && PmtmVersion.IsEarlierThan(s.version.value, PmtmVersion.V0_2);
      Success(s.(meta := m, inMeta := !closes))
  }

  /** A parameter, timer or overhead line: its value is appended to the parameters or
      the results. Without a version each of them fails. */
  function StepData(s: State, line: string, k: LineKind, asWritten: bool): (r: Result<State>)
    requires k in {OverheadLine, ParameterLine, TimerLine}
    ensures s.version.None? ==> r.Failure?
    ensures r.Success? && k == ParameterLine ==>
              s.version.Some? && PmtmFactory.GetParameter(line, s.version.value, asWritten).Success?
              && r.value == s.(parameters := s.parameters + [PmtmFactory.GetParameter(line, s.version.value, asWritten).value])
    ensures r.Success? && k == TimerLine ==>
              s.version.Some? && PmtmFactory.GetResult(line, s.version.value, asWritten).Success?
              && r.value == s.(results := s.results + [PmtmFactory.GetResult(line, s.version.value, asWritten).value])
    ensures r.Success? && k == OverheadLine ==>
              s.version.Some? && PmtmFactory.GetOverhead(line, s.version.value, asWritten).Success?
              && r.value == s.(results := s.results + [PmtmFactory.GetOverhead(line, s.version.value, asWritten).value])
    ensures r.Success? ==> Grows(s, r.value) && r.value.version == s.version && r.value.ended == s.ended
                           && |r.value.parameters| <= |s.parameters| + 1
  {
    if s.version.None? then Failure("NullPointerException")
    else if k == ParameterLine then
      var p :- PmtmFactory.GetParameter(line, s.version.value, asWritten);
      Success(s.(parameters := s.parameters + [p]))
    else if k == TimerLine then
      var o :- PmtmFactory.GetResult(line, s.version.value, asWritten);
      Success(s.(results := s.results + [o]))
    else
      var o :- PmtmFactory.GetOverhead(line, s.version.value, asWritten);
      Success(s.(results := s.results + [o]))
  }

  /** Before version 0.2 a `Time` line read in the header closes it. */
  lemma TimeClosesEarlyHeader(s: State, line: string, asWritten: bool)
    requires KindOfLine(line) == Some(MetaLine(TimeField))
    requires s.version.Some? && PmtmVersion.IsEarlierThan(s.version.value, PmtmVersion.V0_2)
    requires Step(s, line, asWritten).Success?
    ensures !Step(s, line, asWritten).value.inMeta
  {
  }

  /** A timer line appends its value to the results. */
  lemma TimerLineAppends(s: State, line: string, asWritten: bool)
    requires KindOfLine(line) == Some(TimerLine) && s.version.Some?
    ensures Step(s, line, asWritten).Success? <==> PmtmFactory.GetResult(line, s.version.value, asWritten).Success?
    ensures Step(s, line, asWritten).Success? ==>
              Step(s, line, asWritten).value == s.(results := s.results + [PmtmFactory.GetResult(line, s.version.value, asWritten).value])
  {
    var c := Classify(line);
    assert c.Tokens? && c.k == TimerLine;
    assert Step(s, line, asWritten) == StepData(s, line, TimerLine, asWritten);
  }

  /** The loop body with the readers chosen. */
  function StepWith(asWritten: bool): (State, string) -> Result<State> {
    (u: State, line: string) => Step(u, line, asWritten)
  }

  // ---------------------------------------------------------------------------
  // The source's readers and the corrected ones
  // ---------------------------------------------------------------------------

  /** A line on which the source's readers and the corrected ones agree: no token is an
      optionally signed `INF` or names version 0.3.0, and a processor line's clock-speed
      token is present and not a whole number of GHz. */
  predicate Ordinary(line: string) {
    var t := JavaText.SplitComma(line);
    PmtmFactory.NoInf(t) && PmtmFactory.NoZeroThreeZero(t)
    && (t != [] && t[0] == "Processor" ==> PmtmFactory.ClockOrdinary(t, 5))
  }

  /** The processor reader depends on the choice only through the clock speed. */
  lemma ReadProcessorAgrees(t: seq<string>)
    requires PmtmFactory.ClockOrdinary(t, 5)
    ensures ReadProcessor(t, true) == ReadProcessor(t, false)
  {
    PmtmFactory.ClockSpeedAgrees(t, 5);
  }

  /** A metadata line that is ordinary is stored the same either way. */
  lemma ProcessMetaDataAgrees(line: string, v: Option<Version>, m: PmtmMeta)
    requires Ordinary(line)
    ensures ProcessMetaData(line, v, m, true) == ProcessMetaData(line, v, m, false)
  {
    var t := JavaText.SplitComma(line);
    if t != [] && FieldOf(t[0]).Some? {
      var f := FieldOf(t[0]).value;
      assert ProcessMetaData(line, v, m, true) == SetField(t, f, v, m, true);
      assert ProcessMetaData(line, v, m, false) == SetField(t, f, v, m, false);
      if f == ProcessorField {
        FieldOfProcessor(t[0]);
        ReadProcessorAgrees(t);
      }
      SetFieldAgrees(t, f, v, m);
    }
  }

  /** Only the tag `Processor` sets the processor. */
  lemma FieldOfProcessor(tag: string)
    requires FieldOf(tag) == Some(ProcessorField)
    ensures tag == "Processor"
  {
  }

  /** Only the processor field depends on the choice, through the processor reader. */
  lemma SetFieldAgrees(t: seq<string>, f: MetaField, v: Option<Version>, m: PmtmMeta)
    requires f == ProcessorField ==> ReadProcessor(t, true) == ReadProcessor(t, false)
    ensures SetField(t, f, v, m, true) == SetField(t, f, v, m, false)
  {
  }

  /** An ordinary parameter, timer or overhead line is read the same either way. */
  lemma StepDataAgrees(s: State, line: string, k: LineKind)
    requires k in {OverheadLine, ParameterLine, TimerLine}
    requires Ordinary(line)
    ensures StepData(s, line, k, true) == StepData(s, line, k, false)
  {
    if s.version.Some? {
      var v := s.version.value;
      if k == ParameterLine {
        PmtmFactory.GetParameterAgrees(line, v);
      } else if k == TimerLine {
        PmtmFactory.GetResultAgrees(line, v);
      } else {
        PmtmFactory.GetOverheadAgrees(line, v);
      }
    }
  }

  /** On an ordinary line one pass of the loop is the same either way. */
  lemma StepAgrees(s: State, line: string)
    requires Ordinary(line)
    ensures Step(s, line, true) == Step(s, line, false)
  {
    var c := Classify(line);
    if c.Tokens? {
      assert Step(s, line, true) == StepKind(s, line, c.t, c.k, true);
      assert Step(s, line, false) == StepKind(s, line, c.t, c.k, false);
      StepKindAgrees(s, line, c.t, c.k);
    }
  }

  lemma StepKindAgrees(s: State, line: string, t: seq<string>, k: LineKind)
    requires Ordinary(line)
    ensures StepKind(s, line, t, k, true) == StepKind(s, line, t, k, false)
  {
    match k
    case VersionLine =>
      PmtmFactory.GetVersionAgrees(line);
    case MetaLine(f) =>
      ProcessMetaDataAgrees(line, s.version, s.meta);
    case OverheadLine =>
      StepDataAgrees(s, line, k);
    case ParameterLine =>
      StepDataAgrees(s, line, k);
    case TimerLine =>
      StepDataAgrees(s, line, k);
    case _ =>
  }

  /** So do any number of ordinary lines. */
  lemma {:induction false} ProcessAgrees(s: State, lines: seq<string>)
    requires forall i :: 0 <= i < |lines| ==> Ordinary(lines[i])
    ensures Process(s, lines, true) == Process(s, lines, false)
    decreases |lines|
  {
    if lines != [] {
      StepAgrees(s, lines[0]);
      match Step(s, lines[0], false)
      case Failure(_) =>
      case Success(u) =>
        assert forall i :: 0 <= i < |lines[1..]| ==> lines[1..][i] == lines[i + 1];
        ProcessAgrees(u, lines[1..]);
    }
  }

  /** The whole loop: every line in order, stopping at the first error. */
  function Process(s: State, lines: seq<string>, asWritten: bool): Result<State> {
    LineLoop.Loop(StepWith(asWritten), s, lines)
  }

  /** Across any number of lines the section flags only close, the values only grow, and
      there are at most as many new parameters as lines. */
  lemma {:induction false} ProcessGrows(s: State, lines: seq<string>, asWritten: bool)
    requires Process(s, lines, asWritten).Success?
    ensures Grows(s, Process(s, lines, asWritten).value)
    ensures |Process(s, lines, asWritten).value.parameters| <= |s.parameters| + |lines|
    decreases |lines|
  {
    if lines != [] {
      var u := Step(s, lines[0], asWritten).value;
      ProcessGrows(u, lines[1..], asWritten);
    }
  }

  /** Processing two blocks of lines is processing the first and then the second. */
  lemma ProcessAppend(s: State, a: seq<string>, b: seq<string>, asWritten: bool)
    ensures Process(s, a + b, asWritten) ==
      match Process(s, a, asWritten)
      case Failure(e) => Failure(e)
      case Success(u) => Process(u, b, asWritten)
  {
    LineLoop.LoopAppend(StepWith(asWritten), s, a, b);
  }

  /** A blank line anywhere makes no difference. */
  lemma BlankLineIgnored(s: State, a: seq<string>, blank: string, b: seq<string>, asWritten: bool)
    requires IsBlank(blank)
    ensures Process(s, a + [blank] + b, asWritten) == Process(s, a + b, asWritten)
  {
    LineLoop.LoopSkip(StepWith(asWritten), s, a, blank, b);
  }

  /** Once `#Type` has been read, no metadata line is accepted, however many lines lie
      between. */
  lemma {:induction false} MetaAfterTypeFails(s: State, lines: seq<string>, meta: string, asWritten: bool)
    requires !s.inMeta
    requires KindOfLine(meta).Some? && KindOfLine(meta).value.MetaLine?
    ensures Process(s, lines + [meta], asWritten).Failure?
  {
    ProcessAppend(s, lines, [meta], asWritten);
    if Process(s, lines, asWritten).Success? {
      var u := Process(s, lines, asWritten).value;
      ProcessGrows(s, lines, asWritten);
      assert !u.inMeta;
      assert Step(u, meta, asWritten).Failure?;
    }
  }

  /** The version comes only from a version line. */
  lemma {:induction false} VersionFromVersionLine(s: State, lines: seq<string>, asWritten: bool)
    requires forall i :: 0 <= i < |lines| ==> KindOfLine(lines[i]) != Some(VersionLine)
    requires Process(s, lines, asWritten).Success?
    ensures Process(s, lines, asWritten).value.version == s.version
    decreases |lines|
  {
    if lines != [] {
      var u := Step(s, lines[0], asWritten).value;
      assert forall i :: 0 <= i < |lines[1..]| ==> lines[1..][i] == lines[i + 1];
      VersionFromVersionLine(u, lines[1..], asWritten);
    }
  }

  /** The end marker is set only by an end-of-file line. */
  lemma {:induction false} EndFromEndLine(s: State, lines: seq<string>, asWritten: bool)
    requires !s.ended
    requires forall i :: 0 <= i < |lines| ==> KindOfLine(lines[i]) != Some(EndLine)
    requires Process(s, lines, asWritten).Success?
    ensures !Process(s, lines, asWritten).value.ended
    decreases |lines|
  {
    if lines != [] {
      var u := Step(s, lines[0], asWritten).value;
      assert forall i :: 0 <= i < |lines[1..]| ==> lines[1..][i] == lines[i + 1];
      EndFromEndLine(u, lines[1..], asWritten);
    }
  }

  // ---------------------------------------------------------------------------
  // Assembling the run
  // ---------------------------------------------------------------------------

  /** What a loaded file yields: the run, the application name, the version and the tag. */
  datatype PmtmFile = PmtmFile(run: Run.Run, applicationName: Option<string>, version: Version,
                               tag: Option<string>)

  const PeCountName: string := "PE Count"

  /** The run date: the trimmed date and time joined by a space and read by the date
      parser; a missing date or time, or text the parser rejects, gives the epoch. */
  function RunDate(m: PmtmMeta, parseDate: string -> Option<Run.Date>): (d: Run.Date)
    ensures m.date.None? || m.time.None? ==> d == 0
    ensures m.date.Some? && m.time.Some? &&
            parseDate(JavaText.Trim(m.date.value) + " " + JavaText.Trim(m.time.value)).Some? ==>
              d == parseDate(JavaText.Trim(m.date.value) + " " + JavaText.Trim(m.time.value)).value
  {
    if m.date.None? || m.time.None? then 0
    else match parseDate(JavaText.Trim(m.date.value) + " " + JavaText.Trim(m.time.value))
      case Some(d) => d
      case None => 0
  }

  /** The parameters of the data set: those read, then the process count if one was
      given, as an `Integer` of rank UNKNOWN. */
  function AllParameters(s: State): (ps: seq<Value.Value>)
    ensures s.meta.nprocs.None? ==> ps == s.parameters
    ensures s.meta.nprocs.Some? ==> |ps| == |s.parameters| + 1 && ps[..|s.parameters|] == s.parameters
    ensures s.meta.nprocs.Some? ==> var pe := ps[|s.parameters|];
              pe.name == PeCountName && pe.rank == Rank.Unknown
              && pe.value == Some(Value.IntegerVal(s.meta.nprocs.value))
  {
    if s.meta.nprocs.Some? then
      s.parameters + [Value.Simple(PeCountName, Rank.Unknown, Some(Value.IntegerVal(s.meta.nprocs.value)))]
    else s.parameters
  }

  function CompilerRecord(m: PmtmMeta): Option<MetaRecord.Meta> {
    if m.compiler.Some? then Some(MetaRecord.CompilerMeta(m.compiler.value)) else None
  }

  function MachineRecord(m: PmtmMeta): Option<MetaRecord.Meta> {
    if m.machine.Some? then Some(MetaRecord.MachineMeta(m.machine.value)) else None
  }

  function MpiRecord(m: PmtmMeta): Option<MetaRecord.Meta> {
    if m.mpi.Some? then Some(MetaRecord.MpiMeta(m.mpi.value)) else None
  }

  function OsRecord(m: PmtmMeta): Option<MetaRecord.Meta> {
    if m.os.Some? then Some(MetaRecord.OsMeta(m.os.value)) else None
  }

  function ProcessorRecord(m: PmtmMeta): Option<MetaRecord.Meta> {
    if m.processor.Some? then Some(MetaRecord.ProcessorMeta(m.processor.value)) else None
  }

  /** After the loop: the version is required, and from 0.2.7 so is the end marker. The
      run gets the id (or the file's MD5 sum), the date, the path and the flags, the five
      metadata records that were read (never the application) and one data set. */
  function Finish(s: State, parseDate: string -> Option<Run.Date>, md5: string, path: string): (r: Result<PmtmFile>)
    ensures r.Success? <==> s.version.Some?
                            && !(PmtmVersion.IsLaterThanOrEqualTo(s.version.value, PmtmVersion.V0_2_7) && !s.ended)
    ensures r.Success? ==> r.value.version == s.version.value
                           && r.value.applicationName == s.meta.applicationName && r.value.tag == s.meta.tag
    ensures r.Success? ==> var run := r.value.run;
              run.runId == Some(if s.meta.runId.Some? then s.meta.runId.value else md5)
              && run.runDate == RunDate(s.meta, parseDate) && run.file == Some(path)
              && run.flags == (if s.flags.Some? then s.flags.value else [])
              && run.dataSets == [RunData.RunData(AllParameters(s), s.results)]
    ensures r.Success? ==> var meta := r.value.run.meta;
              MetaData.Application !in meta
              && (MetaData.Compiler in meta <==> s.meta.compiler.Some?)
              && (MetaData.Machine in meta <==> s.meta.machine.Some?)
              && (MetaData.Mpi in meta <==> s.meta.mpi.Some?)
              && (MetaData.OperatingSystem in meta <==> s.meta.os.Some?)
              && (MetaData.Processor in meta <==> s.meta.processor.Some?)
  {
    if s.version.None? then Failure("IOException: Incomplete PMTM file: no PMTM version line found")
    else if PmtmVersion.IsLaterThanOrEqualTo(s.version.value, PmtmVersion.V0_2_7) && !s.ended then
      Failure("IOException: Incomplete PMTM file: end of file marker not found")
    else
      var runId := if s.meta.runId.Some? then s.meta.runId.value else md5;
      var flags := if s.flags.Some? then s.flags.value else [];
      var run0 := Run.NewLoaded(Some(runId), Some(RunDate(s.meta, parseDate)), Some(path), flags).value;
      var run1 := Run.SetMetaData(run0, MetaData.Compiler, CompilerRecord(s.meta));
      var run2 := Run.SetMetaData(run1, MetaData.Machine, MachineRecord(s.meta));
      var run3 := Run.SetMetaData(run2, MetaData.Mpi, MpiRecord(s.meta));
      var run4 := Run.SetMetaData(run3, MetaData.OperatingSystem, OsRecord(s.meta));
      var run5 := Run.SetMetaData(run4, MetaData.Processor, ProcessorRecord(s.meta));
      var run := Run.AddDataSet(run5, RunData.RunData(AllParameters(s), s.results));
      Success(PmtmFile(run, s.meta.applicationName, s.version.value, s.meta.tag))
  }

  /** `loadFile`: the first line, trimmed, must be the header; the rest go through the
      loop and the result is assembled. With `asWritten` the line readers are those of the
      source; without it they are the corrected ones. */
  function LoadFile(lines: seq<string>, parseDate: string -> Option<Run.Date>, md5: string,
                    path: string, asWritten: bool): (r: Result<PmtmFile>)
    ensures r.Success? ==> lines != [] && JavaText.Trim(lines[0]) == PmtmFactory.Header
    ensures r.Success? ==> Process(Start, lines[1..], asWritten).Success?
                           && Finish(Process(Start, lines[1..], asWritten).value, parseDate, md5, path) == r
  {
    if lines == [] || JavaText.Trim(lines[0]) != PmtmFactory.Header then
      Failure("IOException: Invalid header found when loading PMTM file")
    else
      var s :- Process(Start, lines[1..], asWritten);
      Finish(s, parseDate, md5, path)
  }

  /** A file whose lines after the header are all ordinary loads the same with the
      source's readers as with the corrected ones. */
  lemma LoadFileAgrees(lines: seq<string>, parseDate: string -> Option<Run.Date>, md5: string, path: string)
    requires forall i :: 1 <= i < |lines| ==> Ordinary(lines[i])
    ensures LoadFile(lines, parseDate, md5, path, true) == LoadFile(lines, parseDate, md5, path, false)
  {
    if lines != [] {
      assert forall i :: 0 <= i < |lines[1..]| ==> lines[1..][i] == lines[i + 1];
      ProcessAgrees(Start, lines[1..]);
    }
  }

  /** A file without a version line is rejected. */
  lemma LoadFileNeedsVersion(lines: seq<string>, parseDate: string -> Option<Run.Date>, md5: string,
                             path: string, asWritten: bool)
    requires forall i :: 1 <= i < |lines| ==> KindOfLine(lines[i]) != Some(VersionLine)
    ensures LoadFile(lines, parseDate, md5, path, asWritten).Failure?
  {
    if lines != [] && JavaText.Trim(lines[0]) == PmtmFactory.Header && Process(Start, lines[1..], asWritten).Success? {
      var rest := lines[1..];
      forall i | 0 <= i < |rest| ensures KindOfLine(rest[i]) != Some(VersionLine) {
        assert rest[i] == lines[i + 1];
      }
      VersionFromVersionLine(Start, rest, asWritten);
      assert Finish(Process(Start, rest, asWritten).value, parseDate, md5, path).Failure?;
    }
  }

  /** A file of version 0.2.7 or later without an end-of-file line is rejected. */
  lemma LoadFileNeedsEndMarker(lines: seq<string>, parseDate: string -> Option<Run.Date>, md5: string,
                               path: string, asWritten: bool)
    requires forall i :: 1 <= i < |lines| ==> KindOfLine(lines[i]) != Some(EndLine)
    requires LoadFile(lines, parseDate, md5, path, asWritten).Success?
    ensures PmtmVersion.IsEarlierThan(LoadFile(lines, parseDate, md5, path, asWritten).value.version, PmtmVersion.V0_2_7)
  {
    var rest := lines[1..];
    forall i | 0 <= i < |rest| ensures KindOfLine(rest[i]) != Some(EndLine) {
      assert rest[i] == lines[i + 1];
    }
    EndFromEndLine(Start, rest, asWritten);
    var s := Process(Start, rest, asWritten).value;
    var r := Finish(s, parseDate, md5, path);
    assert r == LoadFile(lines, parseDate, md5, path, asWritten);
    assert !s.ended && r.Success?;
    PmtmVersion.OrderLaws(s.version.value, PmtmVersion.V0_2_7, s.version.value);
  }

  /** The loaded run has exactly one data set, and it holds a process count parameter
      exactly when the header gave one. */
  lemma LoadFilePeCount(lines: seq<string>, parseDate: string -> Option<Run.Date>, md5: string,
                        path: string, asWritten: bool)
    requires LoadFile(lines, parseDate, md5, path, asWritten).Success?
    ensures var run := LoadFile(lines, parseDate, md5, path, asWritten).value.run;
            var s := Process(Start, lines[1..], asWritten).value;
            |run.dataSets| == 1
            && (s.meta.nprocs.Some? <==> |run.dataSets[0].parameters| == |s.parameters| + 1)
  {
  }
}
