/** `pmtm_reader.Reader`: the Python importer's reader of PMTM timing files. It works on the
    rows the CSV reader yields; each row is a list of cells. */
module PmtmReader {
  import opened Wrappers
  import JavaText
  import PyText

  // ---------------------------------------------------------------------------
  // Records (the named tuples of the reader)
  // ---------------------------------------------------------------------------

  datatype Application = Application(name: string, version: string)
  /** The vendor is `None` for files that predate the vendor column. */
  datatype Machine = Machine(vendor: Option<string>, name: string)
  datatype Parameter = Parameter(rank: string, name: string, value: string)
  datatype Timer = Timer(rank: string, name: string, value: string, error: string, count: string,
                         pause: string)
  datatype Overhead = Overhead(rank: string, name: string, value: string, error: string)
  datatype Os = Os(vendor: string, name: string, version: string, kernel: string)
  datatype Processor = Processor(vendor: string, name: string, arch: string, clock: string,
                                 nprocs: string, nthreads: string)
  datatype Compiler = Compiler(vendor: string, name: string, version: string)
  datatype Mpi = Mpi(vendor: string, name: string, version: string)

  /** A file version as the tuple of its dotted parts. */
  type Version = seq<int>

  /** The reader's attributes. `tag` and `version` are attributes the reader only acquires
      from a row, so `None` stands for an attribute that does not exist yet. */
  datatype Reader = Reader(
    environ: map<string, string>,
    datetime: real,
    overheads: seq<Overhead>,
    parameters: seq<Parameter>,
    timers: seq<Timer>,
    flags: seq<string>,
    runId: Option<string>,
    nprocs: Option<string>,
    maxOpenmpThreads: Option<string>,
    application: Option<Application>,
    compiler: Option<Compiler>,
    machine: Option<Machine>,
    mpi: Option<Mpi>,
    os: Option<Os>,
    processor: Option<Processor>,
    tag: Option<string>,
    version: Option<Version>)

  /** A newly constructed reader. */
  const Fresh: Reader := Reader(map[], 0.0, [], [], [], [], None, None, None, None, None, None,
                                None, None, None, None, None)

  /** The calendar readings a date or time row needs, which depend on the local time zone:
      `date` and `time` are `time.mktime(time.strptime(text, format))` for the formats
      `%d-%m-%Y` and `%H:%M` (`None` for a `ValueError`), and `minuteZero` is the reading of
      `'0'` as `%M`. */
  datatype Clock = Clock(date: string -> Option<real>, time: string -> Option<real>,
                         minuteZero: real)

  const HeaderRow: seq<string> := ["Performance Modelling Timing File"]
  const EndRow: seq<string> := ["End of File"]

  /** The last version whose files may lack the end marker. */
  const LastUnterminated: Version := [0, 2, 6]
  /** The last version whose machine rows carry no vendor. */
  const LastVendorless: Version := [2, 1, 1]

  // ---------------------------------------------------------------------------
  // Version tuples
  // ---------------------------------------------------------------------------

  /** Python's `<` on tuples of integers: the first difference decides and a proper prefix
      comes first. */
  predicate Less(a: Version, b: Version)
    decreases |a|
  {
    if a == [] then b != []
    else if b == [] then false
    else a[0] < b[0] || (a[0] == b[0] && Less(a[1..], b[1..]))
  }

  /** Python's `<=` on tuples. */
  predicate AtMost(a: Version, b: Version) { a == b || Less(a, b) }

  /** The tuple order is a strict total order. */
  lemma {:induction false} LessTotal(a: Version, b: Version)
    ensures !(Less(a, b) && Less(b, a))
    ensures Less(a, b) || a == b || Less(b, a)
    decreases |a|
  {
    if a != [] && b != [] {
      LessTotal(a[1..], b[1..]);
      if a[0] == b[0] && a[1..] == b[1..] {
        assert a == [a[0]] + a[1..] && b == [b[0]] + b[1..];
      }
    }
  }

  /** No version is earlier than itself. */
  lemma {:induction false} LessIrreflexive(a: Version)
    ensures !Less(a, a)
    decreases |a|
  {
    if a != [] {
      LessIrreflexive(a[1..]);
    }
  }

  /** The tuple order is transitive. */
  lemma {:induction false} LessTransitive(a: Version, b: Version, c: Version)
    requires Less(a, b) && Less(b, c)
    ensures Less(a, c)
    decreases |a|
  {
    if a != [] && a[0] == b[0] && b[0] == c[0] {
      LessTransitive(a[1..], b[1..], c[1..]);
    }
  }

  /** A version is later than `v` exactly when it is not at most `v`. */
  lemma {:induction false} LaterIffNotAtMost(a: Version, v: Version)
    ensures Less(v, a) <==> !AtMost(a, v)
  {
    LessTotal(a, v);
  }

  // ---------------------------------------------------------------------------
  // Dispatch
  // ---------------------------------------------------------------------------

  /** The `process_*` methods, one per known row tag. */
  datatype Handler =
    | ProcessPmtmVersion | ProcessApplication | ProcessRunId | ProcessNprocs
    | ProcessMaxOpenmpThreads | ProcessMachine | ProcessProcessor | ProcessOs | ProcessSystem
    | ProcessCompiler | ProcessMpi | ProcessTag | ProcessFlags | ProcessDate | ProcessTime
    | ProcessOverhead | ProcessParameter | ProcessTimer | ProcessEnviron | ProcessSpecific

  /** The method name after `process_`. */
  function HandlerName(h: Handler): string {
    match h
    case ProcessPmtmVersion => "pmtm_version"
    case ProcessApplication => "application"
    case ProcessRunId => "run_id"
    case ProcessNprocs => "nprocs"
    case ProcessMaxOpenmpThreads => "max_openmp_threads"
    case ProcessMachine => "machine"
    case ProcessProcessor => "processor"
    case ProcessOs => "os"
    case ProcessSystem => "system"
    case ProcessCompiler => "compiler"
    case ProcessMpi => "mpi"
    case ProcessTag => "tag"
    case ProcessFlags => "flags"
    case ProcessDate => "date"
    case ProcessTime => "time"
    case ProcessOverhead => "overhead"
    case ProcessParameter => "parameter"
    case ProcessTimer => "timer"
    case ProcessEnviron => "environ"
    case ProcessSpecific => "specific"
  }

  /** The method-name key of a tag: lower-cased, spaces replaced by underscores. */
  function Key(tag: string): (r: string)
    ensures |r| == |tag| && ' ' !in r
  {
    PyText.Replace(PyText.Lower(tag), ' ', '_')
  }

  /** `getattr(self, 'process_' + key)`: the handler whose name is the key, if any. */
  function HandlerFor(key: string): (r: Option<Handler>)
    ensures r.Some? ==> HandlerName(r.value) == key
    ensures r.None? ==> forall h: Handler :: HandlerName(h) != key
  {
    if key == "pmtm_version" then Some(ProcessPmtmVersion)
    else if key == "application" then Some(ProcessApplication)
    else if key == "run_id" then Some(ProcessRunId)
    else if key == "nprocs" then Some(ProcessNprocs)
    else if key == "max_openmp_threads" then Some(ProcessMaxOpenmpThreads)
    else if key == "machine" then Some(ProcessMachine)
    else if key == "processor" then Some(ProcessProcessor)
    else if key == "os" then Some(ProcessOs)
    else if key == "system" then Some(ProcessSystem)
    else if key == "compiler" then Some(ProcessCompiler)
    else if key == "mpi" then Some(ProcessMpi)
    else if key == "tag" then Some(ProcessTag)
    else if key == "flags" then Some(ProcessFlags)
    else if key == "date" then Some(ProcessDate)
    else if key == "time" then Some(ProcessTime)
    else if key == "overhead" then Some(ProcessOverhead)
    else if key == "parameter" then Some(ProcessParameter)
    else if key == "timer" then Some(ProcessTimer)
    else if key == "environ" then Some(ProcessEnviron)
    else if key == "specific" then Some(ProcessSpecific)
    else None
  }

  /** Each handler is found from its own name. */
  lemma {:induction false} HandlerForName(h: Handler)
    ensures HandlerFor(HandlerName(h)) == Some(h)
  {
    match h
    case ProcessPmtmVersion =>
    case ProcessApplication =>
    case ProcessRunId =>
    case ProcessNprocs =>
    case ProcessMaxOpenmpThreads =>
    case ProcessMachine =>
    case ProcessProcessor =>
    case ProcessOs =>
    case ProcessSystem =>
    case ProcessCompiler =>
    case ProcessMpi =>
    case ProcessTag =>
    case ProcessFlags =>
    case ProcessDate =>
    case ProcessTime =>
    case ProcessOverhead =>
    case ProcessParameter =>
    case ProcessTimer =>
    case ProcessEnviron =>
    case ProcessSpecific =>
  }

  // ---------------------------------------------------------------------------
  // Handlers
  // ---------------------------------------------------------------------------

  /** `int(i)` of every part, or `None` when one of them is a `ValueError`. */
  function Ints(parts: seq<string>): Option<seq<int>> {
    if forall k :: 0 <= k < |parts| ==> PyText.Int(parts[k]).Some? then
      Some(seq(|parts|, k requires 0 <= k < |parts| => PyText.Int(parts[k]).value))
    else None
  }

  /** The message of a `_make` call with the wrong number of columns. */
  function Arity(n: nat, cols: seq<string>): string {
    "TypeError: Expected " + PyText.IntStr(n) + " arguments, got " + PyText.IntStr(|cols|)
  }

  const IndexError := "IndexError: list index out of range"

  /** One `process_*` method applied to the stripped columns of a row. */
  function Handle(r: Reader, clock: Clock, h: Handler, cols: seq<string>): Result<Reader> {
    match h
    case ProcessPmtmVersion =>
      if cols == [] then Failure(IndexError)
      else (
        match Ints(PyText.Split(cols[0], '.'))
        case None => Failure("ValueError: invalid literal for int()")
        case Some(v) => Success(r.(version := Some(v))))
    case ProcessApplication =>
      if cols == [] then Failure(IndexError)
      else
        var tokens := PyText.Split(cols[0], ' ');
        Success(r.(application := Some(Application(tokens[0], PyText.Join(" ", tokens[1..])))))
    case ProcessRunId =>
      if cols == [] then Failure(IndexError) else Success(r.(runId := Some(cols[0])))
    case ProcessNprocs =>
      if cols == [] then Failure(IndexError) else Success(r.(nprocs := Some(cols[0])))
    case ProcessMaxOpenmpThreads =>
      if cols == [] then Failure(IndexError) else Success(r.(maxOpenmpThreads := Some(cols[0])))
    case ProcessMachine =>
      if r.version.None? then Failure("AttributeError: 'Reader' object has no attribute 'version'")
      else if AtMost(r.version.value, LastVendorless) then
        if |cols| == 1 then Success(r.(machine := Some(Machine(None, cols[0]))))
        else Failure(Arity(2, [""] + cols))
      else if |cols| == 2 then Success(r.(machine := Some(Machine(Some(cols[0]), cols[1]))))
      else Failure(Arity(2, cols))
    case ProcessProcessor =>
      if |cols| == 6 then
        Success(r.(processor := Some(Processor(cols[0], cols[1], cols[2], cols[3], cols[4], cols[5]))))
      else Failure(Arity(6, cols))
    case ProcessOs =>
      if |cols| == 4 then Success(r.(os := Some(Os(cols[0], cols[1], cols[2], cols[3]))))
      else Failure(Arity(4, cols))
    case ProcessSystem =>
      if |cols| == 4 then Success(r.(os := Some(Os(cols[0], cols[1], cols[2], cols[3]))))
      else Failure(Arity(4, cols))
    case ProcessCompiler =>
      if |cols| == 3 then Success(r.(compiler := Some(Compiler(cols[0], cols[1], cols[2]))))
      else Failure(Arity(3, cols))
    case ProcessMpi =>
      if |cols| == 3 then Success(r.(mpi := Some(Mpi(cols[0], cols[1], cols[2]))))
      else Failure(Arity(3, cols))
    case ProcessTag =>
      if cols == [] then Failure(IndexError) else Success(r.(tag := Some(cols[0])))
    case ProcessFlags =>
      Success(r.(flags := cols))
    case ProcessDate =>
      if cols == [] then Failure(IndexError)
      else (
        match clock.date(cols[0])
        case None => Failure("ValueError: time data does not match format '%d-%m-%Y'")
        case Some(d) => Success(r.(datetime := r.datetime + d)))
    case ProcessTime =>
      if cols == [] then Failure(IndexError)
      else (
        match clock.time(cols[0])
        case None => Failure("ValueError: time data does not match format '%H:%M'")
        case Some(t) => Success(r.(datetime := r.datetime + (t - clock.minuteZero))))
    case ProcessOverhead =>
      var e := PyText.Every2(cols, 0);
      if |e| == 4 then Success(r.(overheads := r.overheads + [Overhead(e[0], e[1], e[2], e[3])]))
      else Failure(Arity(4, e))
    case ProcessParameter =>
      var e := PyText.Every2(cols, 0);
      if |e| == 3 then Success(r.(parameters := r.parameters + [Parameter(e[0], e[1], e[2])]))
      else Failure(Arity(3, e))
    case ProcessTimer =>
      var e := PyText.Every2Below(cols, 7) + PyText.Every2(cols, 9);
      if |e| == 6 then Success(r.(timers := r.timers + [Timer(e[0], e[1], e[2], e[3], e[4], e[5])]))
      else Failure(Arity(6, e))
    case ProcessEnviron =>
      var tokens := PyText.Split(PyText.Join(", ", cols), '=');
      Success(r.(environ := r.environ[tokens[0] := PyText.Join("=", tokens[1..])]))
    case ProcessSpecific =>
      if |cols| < 3 then Failure(IndexError)
      else Success(r.(parameters := r.parameters + [Parameter("0", cols[0], cols[2])]))
  }

  /** `process`: a `#Type` row does nothing; any other tag goes to the method its key names,
      and a tag with no such method is an `AttributeError`. */
  function Process(r: Reader, clock: Clock, name: string, cols: seq<string>): (res: Result<Reader>)
    ensures name == "#Type" ==> res == Success(r)
    ensures name != "#Type" && HandlerFor(Key(name)).None? ==> res.Failure?
    ensures name != "#Type" && HandlerFor(Key(name)).Some? ==>
              res == Handle(r, clock, HandlerFor(Key(name)).value, cols)
  {
    if name == "#Type" then Success(r)
    else
      match HandlerFor(Key(name))
      case None => Failure("AttributeError: 'Reader' object has no attribute 'process_" + Key(name) + "'")
      case Some(h) => Handle(r, clock, h, cols)
  }

  /** Every cell stripped. */
  function StripAll(cols: seq<string>): (r: seq<string>)
    ensures |r| == |cols| && forall k :: 0 <= k < |cols| ==> r[k] == PyText.Strip(cols[k])
  {
    seq(|cols|, k requires 0 <= k < |cols| => PyText.Strip(cols[k]))
  }

  /** `cols[n:]`, empty when the list is shorter. */
  function Drop(cols: seq<string>, n: nat): (r: seq<string>)
    ensures n <= |cols| ==> r == cols[n..]
    ensures n > |cols| ==> r == []
  {
    if n <= |cols| then cols[n..] else []
  }

  /** `parse_line`: the tag is the stripped first cell and an empty tag is skipped. The
      columns are the stripped cells from index 1 for a `specific` row and from index 2 for
      every other row, so the second cell of an ordinary row is a label that is dropped. */
  function ParseLine(r: Reader, clock: Clock, row: seq<string>): (res: Result<Reader>)
    requires row != []
  {
    var tag := PyText.Strip(row[0]);
    if tag == "" then Success(r)
    else if PyText.Lower(tag) == "specific" then Process(r, clock, tag, StripAll(Drop(row, 1)))
    else Process(r, clock, tag, StripAll(Drop(row, 2)))
  }

  /** The columns a row hands to its method: stripped cells from index 1 for `specific`,
      from index 2 otherwise. */
  function Columns(row: seq<string>, tag: string): (cols: seq<string>)
  {
    StripAll(Drop(row, if PyText.Lower(tag) == "specific" then 1 else 2))
  }

  /** A row with a tag that names a method is handed to that method. */
  lemma {:induction false} ParseLineDispatch(r: Reader, clock: Clock, row: seq<string>, h: Handler)
    requires row != []
    requires PyText.Strip(row[0]) != "" && PyText.Strip(row[0]) != "#Type"
    requires HandlerFor(Key(PyText.Strip(row[0]))) == Some(h)
    ensures ParseLine(r, clock, row) == Handle(r, clock, h, Columns(row, PyText.Strip(row[0])))
  {
  }

  /** A row whose tag names a method other than `specific` hands that method its stripped
      cells from index 2. */
  lemma {:induction false} DispatchOrdinary(r: Reader, clock: Clock, row: seq<string>, h: Handler)
    requires row != [] && h != ProcessSpecific
    requires HandlerFor(Key(PyText.Strip(row[0]))) == Some(h)
    ensures ParseLine(r, clock, row) == Handle(r, clock, h, StripAll(Drop(row, 2)))
  {
    var t := PyText.Strip(row[0]);
    UnhandledKeys();
    assert t != "" && t != "#Type";
    KeySpecific(t);
    ParseLineDispatch(r, clock, row, h);
  }

  /** The empty tag and `#Type` have no handler. */
  lemma UnhandledKeys()
    ensures HandlerFor(Key("")) == None && HandlerFor(Key("#Type")) == None
  {
    assert Key("") == "";
    assert Key("#Type") == "#type";
  }

  /** A row whose tag is `specific` in any case hands the method its stripped cells from
      index 1. */
  lemma {:induction false} DispatchSpecific(r: Reader, clock: Clock, row: seq<string>)
    requires row != [] && PyText.Lower(PyText.Strip(row[0])) == "specific"
    ensures ParseLine(r, clock, row) == Handle(r, clock, ProcessSpecific, StripAll(Drop(row, 1)))
  {
    var t := PyText.Strip(row[0]);
    KeySpecific(t);
    assert |t| == 8;
    ParseLineDispatch(r, clock, row, ProcessSpecific);
  }

  /** The loop of `parse` after the header row: empty rows are skipped and the end-marker
      row stops it. The flag says whether the end marker was met. */
  function Consume(r: Reader, clock: Clock, rows: seq<seq<string>>): (res: Result<(Reader, bool)>)
    ensures res.Success? ==> (res.value.1 <==> EndRow in rows)
    decreases |rows|
  {
    if rows == [] then Success((r, false))
    else if rows[0] == EndRow then Success((r, true))
    else if rows[0] == [] then
      var res := Consume(r, clock, rows[1..]);
      assert rows == [rows[0]] + rows[1..];
      res
    else
      match ParseLine(r, clock, rows[0])
      case Failure(e) => Failure(e)
      case Success(r2) =>
        var res := Consume(r2, clock, rows[1..]);
        assert rows == [rows[0]] + rows[1..];
        res
  }

  /** `parse`: the first row must be exactly the header; then the rows are consumed. A file
      that ends without the end marker is refused when its version is later than 0.2.6, and
      when no version row was read at all. An empty file leaves the loop variable unbound. */
  function Parse(clock: Clock, rows: seq<seq<string>>): (res: Result<Reader>)
    ensures rows == [] ==> res.Failure?
    ensures rows != [] && rows[0] != HeaderRow ==> res.Failure?
    ensures res.Success? ==> rows[0] == HeaderRow
    ensures rows != [] && rows[0] == HeaderRow && Consume(Fresh, clock, rows[1..]).Failure? ==>
              res.Failure?
  {
    if rows == [] then Failure("UnboundLocalError: local variable 'line' referenced before assignment")
    else if rows[0] != HeaderRow then Failure("Invalid PMTM file")
    else
      match Consume(Fresh, clock, rows[1..])
      case Failure(e) => Failure(e)
      case Success((s, ended)) =>
        if ended then Success(s)
        else if s.version.None? then Failure("AttributeError: 'Reader' object has no attribute 'version'")
        else if Less(LastUnterminated, s.version.value) then Failure("Incomplete PMTM file")
        else Success(s)
  }

  // ---------------------------------------------------------------------------
  // Properties of the whole file
  // ---------------------------------------------------------------------------

  /** Rows after the first end marker are never looked at. */
  lemma {:induction false} ConsumeStopsAtEnd(r: Reader, clock: Clock, body: seq<seq<string>>,
                                             rest: seq<seq<string>>)
    requires EndRow !in body
    ensures Consume(r, clock, body + [EndRow] + rest) == Consume(r, clock, body + [EndRow])
    decreases |body|
  {
    var a := body + [EndRow] + rest;
    var b := body + [EndRow];
    if body == [] {
      assert a[0] == EndRow && b[0] == EndRow;
    } else {
      assert a[0] == body[0] && b[0] == body[0];
      assert a[1..] == body[1..] + [EndRow] + rest;
      assert b[1..] == body[1..] + [EndRow];
      assert body[0] != EndRow;
      if body[0] == [] {
        ConsumeStopsAtEnd(r, clock, body[1..], rest);
      } else {
        match ParseLine(r, clock, body[0])
        case Failure(_) =>
        case Success(r2) => ConsumeStopsAtEnd(r2, clock, body[1..], rest);
      }
    }
  }

  /** Whatever follows the first end marker has no effect on the parse. */
  lemma {:induction false} ParseStopsAtEnd(clock: Clock, body: seq<seq<string>>,
                                           rest: seq<seq<string>>)
    requires EndRow !in body
    ensures Parse(clock, [HeaderRow] + body + [EndRow] + rest)
         == Parse(clock, [HeaderRow] + body + [EndRow])
  {
    var a := [HeaderRow] + body + [EndRow] + rest;
    var b := [HeaderRow] + body + [EndRow];
    assert a[1..] == body + [EndRow] + rest;
    assert b[1..] == body + [EndRow];
    ConsumeStopsAtEnd(Fresh, clock, body, rest);
  }

  /** An empty row before the end marker changes nothing. */
  lemma {:induction false} EmptyRowSkipped(r: Reader, clock: Clock, front: seq<seq<string>>,
                                           back: seq<seq<string>>)
    requires EndRow !in front
    ensures Consume(r, clock, front + [[]] + back) == Consume(r, clock, front + back)
    decreases |front|
  {
    var a := front + [[]] + back;
    if front == [] {
      assert a[0] == [] && a[1..] == back;
      assert a[0] != EndRow;
      assert front + back == back;
    } else {
      var b := front + back;
      assert a[0] == front[0] && b[0] == front[0];
      assert a[1..] == front[1..] + [[]] + back;
      assert b[1..] == front[1..] + back;
      assert front[0] != EndRow;
      if front[0] == [] {
        EmptyRowSkipped(r, clock, front[1..], back);
      } else {
        match ParseLine(r, clock, front[0])
        case Failure(_) =>
        case Success(r2) => EmptyRowSkipped(r2, clock, front[1..], back);
      }
    }
  }

  /** A file closed by the end marker is accepted whatever its version. */
  lemma {:induction false} TerminatedAccepted(clock: Clock, rows: seq<seq<string>>, s: Reader)
    requires rows != [] && rows[0] == HeaderRow
    requires Consume(Fresh, clock, rows[1..]) == Success((s, true))
    ensures Parse(clock, rows) == Success(s)
  {
  }

  /** A file without the end marker is accepted exactly when it has a version row and its
      version is at most 0.2.6. */
  lemma {:induction false} UnterminatedAccepted(clock: Clock, rows: seq<seq<string>>, s: Reader)
    requires rows != [] && rows[0] == HeaderRow
    requires Consume(Fresh, clock, rows[1..]) == Success((s, false))
    ensures Parse(clock, rows).Success? <==> s.version.Some? && AtMost(s.version.value, LastUnterminated)
    ensures Parse(clock, rows).Success? ==> Parse(clock, rows).value == s
  {
    if s.version.Some? {
      LaterIffNotAtMost(s.version.value, LastUnterminated);
    }
  }

  // ---------------------------------------------------------------------------
  // Properties of single rows
  // ---------------------------------------------------------------------------

  /** An empty tag, or the tag `#Type`, leaves the reader as it was; a tag with no method
      is fatal. */
  lemma {:induction false} SkippedAndUnknownTags(r: Reader, clock: Clock, row: seq<string>)
    requires row != []
    ensures PyText.Strip(row[0]) == "" ==> ParseLine(r, clock, row) == Success(r)
    ensures PyText.Strip(row[0]) == "#Type" ==> ParseLine(r, clock, row) == Success(r)
    ensures PyText.Strip(row[0]) !in {"", "#Type"} && HandlerFor(Key(PyText.Strip(row[0]))).None? ==>
              ParseLine(r, clock, row).Failure?
  {
    var tag := PyText.Strip(row[0]);
    if tag == "#Type" {
      assert PyText.Lower(tag)[1] == 't';
    }
    if tag != "" && tag != "#Type" && HandlerFor(Key(tag)).None? && PyText.Lower(tag) == "specific" {
      assert Key(tag) == "specific";
    }
  }

  /** A `specific` row keeps its columns from index 1: the parameter's name is the second
      cell and its value the fourth, with rank `'0'`. */
  lemma {:induction false} SpecificRow(r: Reader, clock: Clock, tag: string, a: string, b: string,
                                       c: string, rest: seq<string>)
    requires PyText.Lower(PyText.Strip(tag)) == "specific"
    ensures ParseLine(r, clock, [tag, a, b, c] + rest)
         == Success(r.(parameters := r.parameters + [Parameter("0", PyText.Strip(a), PyText.Strip(c))]))
  {
    var row := [tag, a, b, c] + rest;
    assert row[0] == tag;
    DispatchSpecific(r, clock, row);
    var cols := StripAll(Drop(row, 1));
    assert Drop(row, 1) == [a, b, c] + rest;
    assert |cols| >= 3 && cols[0] == PyText.Strip(a) && cols[2] == PyText.Strip(c);
    HandleSpecific(r, clock, cols);
  }

  /** The `specific` method takes the name from the first column and the value from the
      third. */
  lemma {:induction false} HandleSpecific(r: Reader, clock: Clock, cols: seq<string>)
    ensures Handle(r, clock, ProcessSpecific, cols).Success? <==> |cols| >= 3
    ensures |cols| >= 3 ==>
              (Handle(r, clock, ProcessSpecific, cols)
               == Success(r.(parameters := r.parameters + [Parameter("0", cols[0], cols[2])])))
  {
  }

  /** The second cell of any row other than a `specific` row is a label: changing it does not
      change the outcome. */
  lemma {:induction false} LabelIgnored(r: Reader, clock: Clock, row1: seq<string>, row2: seq<string>)
    requires |row1| == |row2| >= 2
    requires row1[0] == row2[0] && row1[2..] == row2[2..]
    requires PyText.Lower(PyText.Strip(row1[0])) != "specific"
    ensures ParseLine(r, clock, row1) == ParseLine(r, clock, row2)
  {
    assert Drop(row1, 2) == Drop(row2, 2);
  }

  /** Tags are matched after stripping, lower-casing and replacing spaces by underscores, so
      two tags with the same key have the same effect. */
  lemma {:induction false} SameKeySameEffect(r: Reader, clock: Clock, t1: string, t2: string,
                                             rest: seq<string>)
    requires Key(PyText.Strip(t1)) == Key(PyText.Strip(t2))
    requires PyText.Strip(t1) != "#Type" && PyText.Strip(t2) != "#Type"
    ensures ParseLine(r, clock, [t1] + rest) == ParseLine(r, clock, [t2] + rest)
  {
    var a := PyText.Strip(t1);
    var b := PyText.Strip(t2);
    assert ([t1] + rest)[0] == t1 && ([t2] + rest)[0] == t2;
    assert Drop([t1] + rest, 1) == Drop([t2] + rest, 1) && Drop([t1] + rest, 2) == Drop([t2] + rest, 2);
    assert |a| == |b|;
    KeySpecific(a);
    KeySpecific(b);
  }

  /** A tag's key is `specific` exactly when the lower-cased tag is. */
  lemma {:induction false} KeySpecific(t: string)
    ensures Key(t) == "specific" <==> PyText.Lower(t) == "specific"
  {
    if Key(t) == "specific" {
      var l := PyText.Lower(t);
      assert forall i :: 0 <= i < |t| ==> l[i] != ' ' by {
        forall i | 0 <= i < |t| ensures l[i] != ' ' {
          assert Key(t)[i] == (if l[i] == ' ' then '_' else l[i]);
        }
      }
      assert forall i :: 0 <= i < |t| ==> Key(t)[i] == l[i];
    }
  }

  /** `os` and `system` rows build the same record from the same columns. */
  lemma {:induction false} OsSystemAlias(r: Reader, clock: Clock, row1: seq<string>, row2: seq<string>)
    requires row1 != [] && row2 != [] && row1[1..] == row2[1..]
    requires Key(PyText.Strip(row1[0])) == "os" && Key(PyText.Strip(row2[0])) == "system"
    ensures ParseLine(r, clock, row1) == ParseLine(r, clock, row2)
  {
    HandlerForName(ProcessOs);
    HandlerForName(ProcessSystem);
    DispatchOrdinary(r, clock, row1, ProcessOs);
    DispatchOrdinary(r, clock, row2, ProcessSystem);
    assert Drop(row1, 2) == Drop(row2, 2);
    HandleOsSystem(r, clock, StripAll(Drop(row1, 2)));
  }

  /** The `os` and `system` methods do the same thing. */
  lemma {:induction false} HandleOsSystem(r: Reader, clock: Clock, cols: seq<string>)
    ensures Handle(r, clock, ProcessOs, cols) == Handle(r, clock, ProcessSystem, cols)
    ensures Handle(r, clock, ProcessOs, cols).Success? <==> |cols| == 4
  {
  }

  /** In a file of version 2.1.1 or earlier a machine row has one column, the name, and the
      vendor is `None`; later files give vendor then name. Any other count is a `TypeError`,
      and a machine row before the version row is an `AttributeError`. */
  lemma {:induction false} MachineColumns(r: Reader, clock: Clock, cols: seq<string>)
    ensures var res := Handle(r, clock, ProcessMachine, cols);
            && (r.version.None? ==> res.Failure?)
            && (r.version.Some? && AtMost(r.version.value, LastVendorless) ==>
                  (res.Success? <==> |cols| == 1)
                  && (res.Success? ==> res.value == r.(machine := Some(Machine(None, cols[0])))))
            && (r.version.Some? && Less(LastVendorless, r.version.value) ==>
                  (res.Success? <==> |cols| == 2)
                  && (res.Success? ==> res.value == r.(machine := Some(Machine(Some(cols[0]), cols[1])))))
  {
    if r.version.Some? {
      LaterIffNotAtMost(r.version.value, LastVendorless);
    }
  }

  /** The 2.1.1 example: a machine row naming `WILLOW` gives `(None, 'WILLOW')`. */
  lemma WillowExample(r: Reader, clock: Clock)
    requires r.version == Some([2, 1, 1])
    ensures ParseLine(r, clock, ["Machine", "Name", "WILLOW"]).Success?
    ensures ParseLine(r, clock, ["Machine", "Name", "WILLOW"]).value.machine == Some(Machine(None, "WILLOW"))
  {
    var row := ["Machine", "Name", "WILLOW"];
    PyText.StripUnpadded("Machine");
    PyText.StripUnpadded("WILLOW");
    assert Key("Machine") == "machine";
    assert Drop(row, 2) == ["WILLOW"];
    assert StripAll(["WILLOW"]) == ["WILLOW"];
  }

  /** A parameter row keeps the columns at even positions (`cols[::2]`): it needs 5 or 6
      columns and gives (rank, name, value) from positions 0, 2 and 4. */
  lemma {:induction false} ParameterColumns(r: Reader, clock: Clock, cols: seq<string>)
    ensures var res := Handle(r, clock, ProcessParameter, cols);
            && (res.Success? <==> |cols| == 5 || |cols| == 6)
            && (res.Success? ==>
                  res.value == r.(parameters := r.parameters + [Parameter(cols[0], cols[2], cols[4])]))
  {
  }

  /** An overhead row also keeps the even positions: it needs 7 or 8 columns and gives
      (rank, name, value, error) from positions 0, 2, 4 and 6. */
  lemma {:induction false} OverheadColumns(r: Reader, clock: Clock, cols: seq<string>)
    ensures var res := Handle(r, clock, ProcessOverhead, cols);
            && (res.Success? <==> |cols| == 7 || |cols| == 8)
            && (res.Success? ==>
                  res.value == r.(overheads := r.overheads + [Overhead(cols[0], cols[2], cols[4], cols[6])]))
  {
  }

  /** A timer row keeps `cols[:7:2] + cols[9::2]`: it needs 12 or 13 columns and gives
      (rank, name, value, error, count, pause) from positions 0, 2, 4, 6, 9 and 11. */
  lemma {:induction false} TimerColumns(r: Reader, clock: Clock, cols: seq<string>)
    ensures var res := Handle(r, clock, ProcessTimer, cols);
            && (res.Success? <==> |cols| == 12 || |cols| == 13)
            && (res.Success? ==>
                  res.value == r.(timers := r.timers + [Timer(cols[0], cols[2], cols[4], cols[6],
                                                               cols[9], cols[11])]))
  {
    var e1 := PyText.Every2Below(cols, 7);
    var e2 := PyText.Every2(cols, 9);
    var e := e1 + e2;
    if |cols| == 12 || |cols| == 13 {
      assert |e1| == 4 && |e2| == 2;
      assert e[4] == e2[0] && e[5] == e2[1];
    }
  }

  /** The application name is the text before the first space and the version is the rest,
      so name, a space and version give the cell back; a cell without a space is all name
      and an empty version. */
  lemma {:induction false} ApplicationSplit(r: Reader, clock: Clock, cols: seq<string>)
    requires cols != []
    ensures var res := Handle(r, clock, ProcessApplication, cols);
            && res.Success? && res.value.application.Some?
            && var app := res.value.application.value;
            && ' ' !in app.name
            && (' ' in cols[0] ==> cols[0] == app.name + " " + app.version)
            && (' ' !in cols[0] ==> app.name == cols[0] && app.version == "")
  {
    PyText.SplitFirst(cols[0], ' ');
  }

  /** A cell made of a space-free name, a space and a version gives that name and version
      back, whatever spaces the version holds. */
  lemma {:induction false} ApplicationOfCell(r: Reader, clock: Clock, name: string, version: string)
    requires ' ' !in name
    ensures Handle(r, clock, ProcessApplication, [name + " " + version])
         == Success(r.(application := Some(Application(name, version))))
  {
    var cell := name + " " + version;
    assert forall i :: 0 <= i < |name| ==> name[i] != ' ';
    JavaText.PiecesCons(name, ' ', version, {' '});
    assert cell == name + [' '] + version;
    JavaText.PiecesJoin(version, ' ');
    var tokens := PyText.Split(cell, ' ');
    assert tokens == [name] + JavaText.Pieces(version, {' '});
    assert tokens[1..] == JavaText.Pieces(version, {' '});
  }

  /** An environ row joins its columns with `', '`; the variable's name is the text before
      the first `=` and its value the rest, `=` signs included. No other entry changes. */
  lemma {:induction false} EnvironSplit(r: Reader, clock: Clock, cols: seq<string>)
    ensures var text := PyText.Join(", ", cols);
            var name := PyText.Split(text, '=')[0];
            var value := PyText.Join("=", PyText.Split(text, '=')[1..]);
            && Handle(r, clock, ProcessEnviron, cols) == Success(r.(environ := r.environ[name := value]))
            && '=' !in name
            && (if '=' in text then text == name + "=" + value else name == text && value == "")
  {
    PyText.SplitFirst(PyText.Join(", ", cols), '=');
  }

  /** A date row adds its reading to `datetime` and changes nothing else. */
  lemma {:induction false} DateAdds(r: Reader, clock: Clock, cols: seq<string>)
    ensures var res := Handle(r, clock, ProcessDate, cols);
            && (res.Success? <==> cols != [] && clock.date(cols[0]).Some?)
            && (res.Success? ==> res.value == r.(datetime := r.datetime + clock.date(cols[0]).value))
  {
  }

  /** A time row adds its offset from minute zero to `datetime` and changes nothing else. */
  lemma {:induction false} TimeAdds(r: Reader, clock: Clock, cols: seq<string>)
    ensures var res := Handle(r, clock, ProcessTime, cols);
            && (res.Success? <==> cols != [] && clock.time(cols[0]).Some?)
            && (res.Success? ==>
                  res.value == r.(datetime := r.datetime + (clock.time(cols[0]).value - clock.minuteZero)))
  {
  }

  /** Because the two readings are added, a date row and a time row give the same result in
      either order. */
  lemma {:induction false} DateTimeCommute(r: Reader, clock: Clock, d: seq<string>, t: seq<string>)
    requires Handle(r, clock, ProcessDate, d).Success? && Handle(r, clock, ProcessTime, t).Success?
    ensures Handle(Handle(r, clock, ProcessDate, d).value, clock, ProcessTime, t)
         == Handle(Handle(r, clock, ProcessTime, t).value, clock, ProcessDate, d)
  {
    DateAdds(r, clock, d);
    TimeAdds(r, clock, t);
    var r1 := Handle(r, clock, ProcessDate, d).value;
    var r2 := Handle(r, clock, ProcessTime, t).value;
    DateAdds(r2, clock, d);
    TimeAdds(r1, clock, t);
  }

  /** A version row reads every dotted part as an integer. */
  lemma {:induction false} VersionRow(r: Reader, clock: Clock, major: int, minor: int, build: int)
    ensures var text := PyText.IntStr(major) + "." + PyText.IntStr(minor) + "." + PyText.IntStr(build);
            Handle(r, clock, ProcessPmtmVersion, [text]) == Success(r.(version := Some([major, minor, build])))
  {
    var a := PyText.IntStr(major);
    var b := PyText.IntStr(minor);
    var c := PyText.IntStr(build);
    PyText.IntStrSigns(major);
    PyText.IntStrSigns(minor);
    PyText.IntStrSigns(build);
    PyText.SplitJoin([a, b, c], '.');
    assert [a, b, c][1..] == [b, c] && [b, c][1..] == [c];
    assert PyText.Join(".", [b, c]) == b + "." + c;
    assert PyText.Join(".", [a, b, c]) == a + "." + b + "." + c;
    IntsOfIntStrs(major, minor, build);
  }

  /** Reading the decimal forms of three integers gives the integers. */
  lemma {:induction false} IntsOfIntStrs(major: int, minor: int, build: int)
    ensures Ints([PyText.IntStr(major), PyText.IntStr(minor), PyText.IntStr(build)])
         == Some([major, minor, build])
  {
    PyText.IntOfIntStr(major);
    PyText.IntOfIntStr(minor);
    PyText.IntOfIntStr(build);
    IntsOf3(PyText.IntStr(major), PyText.IntStr(minor), PyText.IntStr(build), major, minor, build);
  }

  /** Three cells that each read as an integer read together as the three integers. */
  lemma {:induction false} IntsOf3(a: string, b: string, c: string, x: int, y: int, z: int)
    requires PyText.Int(a) == Some(x) && PyText.Int(b) == Some(y) && PyText.Int(c) == Some(z)
    ensures Ints([a, b, c]) == Some([x, y, z])
  {
    var ps := [a, b, c];
    assert forall k :: 0 <= k < |ps| ==> PyText.Int(ps[k]).Some?;
    var r := Ints(ps).value;
    assert r[0] == x && r[1] == y && r[2] == z;
    assert r == [x, y, z];
  }
}
