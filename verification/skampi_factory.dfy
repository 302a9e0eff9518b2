/** `SkampiFactory`: reads a SkaMPI results file into a run. Comment lines (first token
    `#`) carry the version, the start date and the `begin result` / `end result` framing of
    result sets; every other line inside a result set is one measurement. */
module SkampiFactory {
  import opened Wrappers
  import JavaText
  import opened JavaNumber
  import LineLoop
  import Value
  import Rank
  import RunData
  import Run
  import SkampiVersion

  const ResultSetParam: string := "Result Set"
  const MainResult: string := "Time"
  const ColumnResult: string := "Time column "

  /** The characters of the result-line delimiter `(\s|=)+`. */
  const ResultDelimiters: set<char> := JavaText.RegexSpaces + {'='}

  /** The tokens of a result line. */
  function ResultTokens(line: string): (t: seq<string>)
    ensures forall k :: 0 <= k < |t| ==> JavaText.NoneIn(t[k], ResultDelimiters)
  {
    JavaText.SplitRuns(line, ResultDelimiters)
  }

  /** The typed parameter value: an `Integer` when the text matches `[+-]?[0-9]+` (one out of
      the `int` range is a `NumberFormatException`), a `Double` when it matches the float
      syntax, a `String` otherwise. */
  function ParamValue(t: string): (r: Result<Value.Datum>)
    ensures r.Success? <==> !IsIntegerText(t) || JavaText.ParseInt(t).Some?
    ensures r.Success? && IsIntegerText(t) ==> r.value == Value.IntegerVal(JavaText.ParseInt(t).value)
    ensures !IsIntegerText(t) && IsFloatText(t) ==> r == Success(Value.DoubleVal(Finite(FloatTextValue(t))))
    ensures !IsIntegerText(t) && !IsFloatText(t) ==> r == Success(Value.StringVal(t))
  {
    if IsIntegerText(t) then
      match JavaText.ParseInt(t)
      case Some(n) => Success(Value.IntegerVal(n))
      case None => Failure("NumberFormatException: " + t)
    else if IsFloatText(t) then Success(Value.DoubleVal(Finite(FloatTextValue(t))))
    else Success(Value.StringVal(t))
  }

  /** The name of the k-th extra time column, counted from 1. */
  function ColumnName(k: nat): string {
    ColumnResult + JavaText.IntToString(k)
  }

  /** Extra time column `k` holding the double `text`. */
  function TimeColumn(k: nat, text: string): Value.Value
    requires IsFloatText(text)
  {
    Value.Simple(ColumnName(k), Rank.Unknown, Some(Value.DoubleVal(Finite(FloatTextValue(text)))))
  }

  /** Every token from `from` on matches the float syntax. */
  predicate AllFloats(t: seq<string>, from: nat) {
    forall j :: from <= j < |t| ==> IsFloatText(t[j])
  }

  /** The extra time columns: token `6 + k` is column `k + 1`. */
  function Columns(t: seq<string>): (r: seq<Value.Value>)
    requires |t| >= 6 && AllFloats(t, 6)
    ensures |r| == |t| - 6
  {
    seq(|t| - 6, k requires 0 <= k < |t| - 6 => TimeColumn(k + 1, t[k + 6]))
  }

  /** The main result of a line: value token 3 and error token 4 as doubles, call count
      token 5 as a `long`, the SkaMPI error type, rank UNKNOWN and pause count 0. */
  function MainValue(t: seq<string>, count: int): (r: Value.Value)
    requires |t| >= 7 && IsFloatText(t[3]) && IsFloatText(t[4])
  {
    Value.Value(MainResult, Some(Value.DoubleVal(Finite(FloatTextValue(t[3])))),
                Some(Value.DoubleVal(Finite(FloatTextValue(t[4])))),
                Some(Value.SkampiStandard), Rank.Unknown, Some(count), Some(0))
  }

  /** The two parameters of a measurement: the result set's name, then the line's own
      parameter (token 0) with its typed value (token 1). */
  function Parameters(name: string, t: seq<string>, p: Value.Datum): (r: seq<Value.Value>)
    requires |t| >= 2
    ensures |r| == 2 && r[0].name == ResultSetParam && r[0].rank == Rank.AllRanks
    ensures r[0].value == Some(Value.StringVal(name))
    ensures r[1].name == t[0] && r[1].rank == Rank.Unknown && r[1].value == Some(p)
    ensures forall k :: 0 <= k < 2 ==> r[k].error.None? && r[k].count.None?
  {
    [Value.Simple(ResultSetParam, Rank.AllRanks, Some(Value.StringVal(name))),
     Value.Simple(t[0], Rank.Unknown, Some(p))]
  }

  /** A measurement line's tokens, once there are at least seven: the parameter value
      first, then the value, error and count of the main result, then the columns. */
  function Measurement(name: string, t: seq<string>): (r: Result<RunData.RunData>)
    requires |t| >= 7
    ensures r.Success? <==> ParamValue(t[1]).Success? && IsFloatText(t[3]) && IsFloatText(t[4])
                            && JavaText.ParseLong(t[5]).Some? && AllFloats(t, 6)
    ensures r.Success? ==> r.value.parameters == Parameters(name, t, ParamValue(t[1]).value)
    ensures r.Success? ==> |r.value.results| == |t| - 5
                           && r.value.results[0] == MainValue(t, JavaText.ParseLong(t[5]).value)
                           && r.value.results[1..] == Columns(t)
  {
    var p :- ParamValue(t[1]);
    if !IsFloatText(t[3]) || !IsFloatText(t[4]) || !IsIntegerText(t[5]) then
      Failure("Malformed SkaMPI file: Malformed results line")
    else
      match JavaText.ParseLong(t[5])
      case None => Failure("NumberFormatException: " + t[5])
      case Some(count) =>
        if !AllFloats(t, 6) then Failure("Malformed SkaMPI file: Malformed results line")
        else
          var results := [MainValue(t, count)] + Columns(t);
          assert results[1..] == Columns(t);
          Success(RunData.RunData(Parameters(name, t, p), results))
  }

  /** `processResult`: one measurement line of result set `name` as a data set. A null
      name or fewer than seven tokens is an error. */
  function ProcessResult(name: Option<string>, line: string): (r: Result<RunData.RunData>)
    ensures name.None? || |ResultTokens(line)| < 7 ==> r.Failure?
    ensures name.Some? && |ResultTokens(line)| >= 7 ==> r == Measurement(name.value, ResultTokens(line))
  {
    if name.None? then Failure("Malformed SkaMPI file: Null result set name")
    else
      var t := ResultTokens(line);
      if |t| < 7 then Failure("Malformed SkaMPI file: Malformed results line: " + line)
      else Measurement(name.value, t)
  }

  /** Extra column k of a measurement is token `k + 5` read as a double. */
  lemma MeasurementColumn(name: string, t: seq<string>, k: nat)
    requires |t| >= 7 && Measurement(name, t).Success? && 1 <= k < |t| - 5
    ensures IsFloatText(t[k + 5])
    ensures Measurement(name, t).value.results[k] == TimeColumn(k, t[k + 5])
  {
    var r := Measurement(name, t).value.results;
    assert AllFloats(t, 6) && r[1..] == Columns(t);
    assert r[k] == r[1..][k - 1];
    ColumnAt(t, k - 1);
  }

  /** A result line written as its tokens separated by single spaces reads back as those
      tokens. */
  lemma ProcessResultOfJoin(name: string, t: seq<string>)
    requires |t| >= 7 && forall k :: 0 <= k < |t| ==> JavaText.NoneIn(t[k], ResultDelimiters) && t[k] != []
    ensures ProcessResult(Some(name), JavaText.Join(t, " ")) == Measurement(name, t)
  {
    JavaText.SplitRunsOfJoin(t, ' ', ResultDelimiters);
  }

  /** A measurement names its results: `Time` first, with the call count of token 5, then
      `Time column 1`, `Time column 2` and so on. */
  lemma MeasurementNames(name: string, t: seq<string>)
    requires |t| >= 7 && Measurement(name, t).Success?
    ensures var rs := Measurement(name, t).value.results;
            rs[0].name == MainResult && rs[0].count == JavaText.ParseLong(t[5])
            && forall k :: 1 <= k < |rs| ==> rs[k].name == ColumnName(k)
  {
    var rs := Measurement(name, t).value.results;
    forall k | 1 <= k < |rs| ensures rs[k].name == ColumnName(k) {
      MeasurementColumn(name, t, k);
    }
  }

  /** Column `k + 1` comes from token `k + 6`. */
  lemma ColumnAt(t: seq<string>, k: nat)
    requires |t| >= 6 && AllFloats(t, 6) && k < |t| - 6
    ensures IsFloatText(t[k + 6]) && Columns(t)[k] == TimeColumn(k + 1, t[k + 6])
  {
  }

  // ---------------------------------------------------------------------------
  // The line loop of loadFile
  // ---------------------------------------------------------------------------

  datatype State = State(version: Option<SkampiVersion.Version>, runDate: Option<Run.Date>,
                         setName: Option<string>, inResultSet: bool,
                         dataSets: seq<RunData.RunData>)

  const Start: State := State(None, None, None, false, [])

  /** The tokens of a line: `split("\\s+")`. */
  function Tokens(line: string): seq<string> {
    JavaText.SplitRuns(line, JavaText.RegexSpaces)
  }

  /** The regular expression `"[^"]+"`: a non-empty name between double quotes. */
  predicate IsQuoted(s: string) {
    |s| >= 3 && s[0] == '"' && s[|s| - 1] == '"' && '"' !in s[1..|s| - 1]
  }

  predicate IsVersionLine(t: seq<string>) {
    |t| == 6 && t[0] == "#" && t[1] == "SKaMPI" && t[2] == "Version"
  }

  predicate IsDateLine(t: seq<string>) {
    |t| == 8 && t[0] == "#" && t[1] == "Started" && t[2] == "at"
  }

  predicate IsBeginLine(t: seq<string>) {
    |t| == 4 && t[0] == "#" && t[1] == "begin" && t[2] == "result"
  }

  predicate IsEndLine(t: seq<string>) {
    |t| == 4 && t[0] == "#" && t[1] == "end" && t[2] == "result"
  }

  /** A measurement line: neither a comment nor an instruction line. */
  predicate IsDataLine(t: seq<string>) {
    t != [] && t[0] != "#" && t[0] != "#>"
  }

  /** A comment line. Its four recognised forms have distinct token counts or words, so at
      most one of the source's successive tests applies. */
  function Comment(parseDate: string -> Option<Run.Date>, s: State, t: seq<string>): (r: Result<State>)
    requires t != [] && t[0] == "#"
    ensures IsVersionLine(t) ==>
              (r.Success? <==> SkampiVersion.GetFromString(JavaText.Join(t[3..6], " ")).Success?)
              && (r.Success? ==> r.value == s.(version := Some(SkampiVersion.GetFromString(JavaText.Join(t[3..6], " ")).value)))
    ensures IsDateLine(t) ==>
              (r.Success? <==> parseDate(JavaText.Join(t[3..8], " ")).Some?)
              && (r.Success? ==> r.value == s.(runDate := parseDate(JavaText.Join(t[3..8], " "))))
    ensures IsBeginLine(t) ==>
              (r.Success? <==> IsQuoted(JavaText.Trim(t[3])))
              && (r.Success? ==> var n := JavaText.Trim(t[3]);
                                 r.value == s.(setName := Some(n[1..|n| - 1]), inResultSet := true))
    ensures IsEndLine(t) ==> r == Success(s.(setName := None, inResultSet := false))
    ensures !IsVersionLine(t) && !IsDateLine(t) && !IsBeginLine(t) && !IsEndLine(t) ==> r == Success(s)
  {
    if IsVersionLine(t) then
      match SkampiVersion.GetFromString(JavaText.Join(t[3..6], " "))
      case Success(v) => Success(s.(version := Some(v)))
      case Failure(_) => Failure("IOException: Version of SKaMPI is unknown")
    else if IsDateLine(t) then
      match parseDate(JavaText.Join(t[3..8], " "))
      case Some(d) => Success(s.(runDate := Some(d)))
      case None => Failure("IOException: Date not in correct format")
    else if IsBeginLine(t) then
      var n := JavaText.Trim(t[3]);
      if !IsQuoted(n) then Failure("Malformed SkaMPI file: Malformed result set name: " + n)
      else Success(s.(setName := Some(n[1..|n| - 1]), inResultSet := true))
    else if IsEndLine(t) then Success(s.(setName := None, inResultSet := false))
    else Success(s)
  }

  /** How a measurement line becomes a data set: `processResult` in the loader; the loop
      and its framing lemmas hold for any such function. */
  type Measurer = (Option<string>, string) -> Result<RunData.RunData>

  /** At most one of the four comment forms applies to a line. */
  lemma CommentFormsExclusive(t: seq<string>)
    ensures IsVersionLine(t) ==> !IsDateLine(t) && !IsBeginLine(t) && !IsEndLine(t)
    ensures IsDateLine(t) ==> !IsBeginLine(t) && !IsEndLine(t)
    ensures IsBeginLine(t) ==> !IsEndLine(t)
  {
  }

  /** A comment line never touches the measurements read so far, and changes only the field
      its own form names: the version, the date, or the result set. */
  lemma CommentKeeps(parseDate: string -> Option<Run.Date>, s: State, t: seq<string>)
    requires t != [] && t[0] == "#"
    ensures var r := Comment(parseDate, s, t);
            r.Success? ==>
              r.value.dataSets == s.dataSets
              && (!IsVersionLine(t) ==> r.value.version == s.version)
              && (!IsDateLine(t) ==> r.value.runDate == s.runDate)
              && (!IsBeginLine(t) && !IsEndLine(t) ==>
                    r.value.setName == s.setName && r.value.inResultSet == s.inResultSet)
  {
  }

  /** A result set opened with a quoted name is named by the text between the quotes, and
      the end line closes it again, leaving every other field as it was. */
  lemma BeginEndRoundTrip(parseDate: string -> Option<Run.Date>, s: State, n: string, e: string)
    requires n != [] && '"' !in n
    ensures var b := Comment(parseDate, s, ["#", "begin", "result", "\"" + n + "\""]);
            b == Success(s.(setName := Some(n), inResultSet := true))
            && Comment(parseDate, b.value, ["#", "end", "result", e]) == Success(s.(setName := None, inResultSet := false))
  {
    var q := "\"" + n + "\"";
    JavaText.TrimOfUntrimmable(q);
    assert q[1..|q| - 1] == n;
    assert IsQuoted(q);
    var t1: seq<string> := ["#", "begin", "result", q];
    assert IsBeginLine(t1) && t1[3] == q;
    var b := Comment(parseDate, s, t1);
    assert b == Success(s.(setName := Some(n), inResultSet := true));
    var t2: seq<string> := ["#", "end", "result", e];
    assert IsEndLine(t2);
  }

  /** One pass of the loop of `loadFile`. A line of white space only has no first token,
      so reading it is an `ArrayIndexOutOfBoundsException`. */
  function Step(parseDate: string -> Option<Run.Date>, measure: Measurer, s: State, line: string): (r: Result<State>)
    ensures Tokens(line) == [] ==> r.Failure?
    ensures Tokens(line) != [] && Tokens(line)[0] == "#" ==> r == Comment(parseDate, s, Tokens(line))
    ensures Tokens(line) != [] && Tokens(line)[0] == "#>" ==> r == Success(s)
    ensures IsDataLine(Tokens(line)) && !s.inResultSet ==> r == Success(s)
    ensures IsDataLine(Tokens(line)) && s.inResultSet ==> r == AddMeasurement(measure, s, line)
  {
    var t := Tokens(line);
    if t == [] then Failure("ArrayIndexOutOfBoundsException: 0")
    else if t[0] == "#" then Comment(parseDate, s, t)
    else if t[0] == "#>" then Success(s)
    else if s.inResultSet then AddMeasurement(measure, s, line)
    else Success(s)
  }

  /** A measurement line read inside the open result set adds its data set at the end. */
  function AddMeasurement(measure: Measurer, s: State, line: string): (r: Result<State>)
    ensures r.Success? <==> measure(s.setName, line).Success?
    ensures r.Success? ==> r.value == s.(dataSets := s.dataSets + [measure(s.setName, line).value])
  {
    var d :- measure(s.setName, line);
    Success(s.(dataSets := s.dataSets + [d]))
  }

  /** The step as a value, for the generic line loop. */
  function StepWith(parseDate: string -> Option<Run.Date>, measure: Measurer): (State, string) -> Result<State> {
    (s, line) => Step(parseDate, measure, s, line)
  }

  function Process(parseDate: string -> Option<Run.Date>, measure: Measurer, s: State,
                   lines: seq<string>): Result<State> {
    LineLoop.Loop(StepWith(parseDate, measure), s, lines)
  }

  /** What `loadFile` returns: the run and the version read. */
  datatype SkampiFile = SkampiFile(run: Run.Run, version: SkampiVersion.Version)

  /** After the loop: a missing date is the epoch, a missing version is an error; the run
      has the file's MD5 sum as its id, no flags and the data sets in file order. */
  function Finish(s: State, md5: string, path: string): (r: Result<SkampiFile>)
    ensures r.Success? <==> s.version.Some?
    ensures r.Success? ==> r.value.version == s.version.value
                           && r.value.run.runId == Some(md5) && r.value.run.file == Some(path)
                           && r.value.run.runDate == (if s.runDate.Some? then s.runDate.value else 0)
                           && r.value.run.dataSets == s.dataSets && r.value.run.flags == []
  {
    var date := if s.runDate.Some? then s.runDate.value else 0;
    if s.version.None? then Failure("Malformed SkaMPI file: Version not found")
    else
      var run := Run.NewLoaded(Some(md5), Some(date), Some(path), []).value;
      Success(SkampiFile(Run.AddAllDataSets(run, s.dataSets), s.version.value))
  }

  /** The factory's own state: the next run number and the number given to each loaded
      run, keyed by run id (a loaded run always has one, and runs are equal exactly when
      their ids are). */
  datatype Factory = Factory(nextId: nat, runIds: map<string, nat>)

  const NewFactory: Factory := Factory(0, map[])

  /** `loadFile`: the loop over all lines, then the run; a loaded run is numbered with the
      next sequential id. */
  function LoadFile(f: Factory, lines: seq<string>, parseDate: string -> Option<Run.Date>,
                    md5: string, path: string): (r: Result<(SkampiFile, Factory)>)
    ensures r.Success? ==> Process(parseDate, ProcessResult, Start, lines).Success?
                           && Finish(Process(parseDate, ProcessResult, Start, lines).value, md5, path) == Success(r.value.0)
    ensures r.Success? ==> r.value.0.run.runId == Some(md5)
                           && r.value.1 == Factory(f.nextId + 1, f.runIds[md5 := f.nextId])
    ensures Process(parseDate, ProcessResult, Start, lines).Success? ==>
              (r.Success? <==> Finish(Process(parseDate, ProcessResult, Start, lines).value, md5, path).Success?)
  {
    var s :- Process(parseDate, ProcessResult, Start, lines);
    var file :- Finish(s, md5, path);
    Success((file, Factory(f.nextId + 1, f.runIds[md5 := f.nextId])))
  }

  /** `getRunId`: the number a loaded run was given, or null. */
  function GetRunId(f: Factory, run: Run.Run): (r: Option<nat>)
    ensures r.Some? <==> run.runId.Some? && run.runId.value in f.runIds
  {
    if run.runId.Some? && run.runId.value in f.runIds then Some(f.runIds[run.runId.value]) else None
  }

  // ---------------------------------------------------------------------------
  // Properties of the loop
  // ---------------------------------------------------------------------------

  /** A measurement line is measured inside a result set and passed over outside one. */
  lemma StepData(parseDate: string -> Option<Run.Date>, measure: Measurer, s: State, line: string)
    requires IsDataLine(Tokens(line))
    ensures StepWith(parseDate, measure)(s, line) ==
              if s.inResultSet then AddMeasurement(measure, s, line) else Success(s)
  {
  }

  /** Appending one data set, as a value for the generic fold. */
  function AppendWith(): (State, RunData.RunData) -> State {
    (u: State, d) => u.(dataSets := u.dataSets + [d])
  }

  /** Appending data sets one by one appends them all, in order. */
  lemma {:induction false} AppendAll(s: State, rs: seq<RunData.RunData>)
    ensures LineLoop.FoldItems(AppendWith(), s, rs) == s.(dataSets := s.dataSets + rs)
    decreases |rs|
  {
    if rs == [] {
      assert s.dataSets + rs == s.dataSets;
    } else {
      var u := AppendWith()(s, rs[0]);
      AppendAll(u, rs[1..]);
      assert u.dataSets + rs[1..] == s.dataSets + rs;
    }
  }

  /** Inside an open result set every measurement line adds its data set, in order:
      `rs[i]` is the data set of line `i`. */
  lemma MeasurementsAppend(parseDate: string -> Option<Run.Date>, measure: Measurer, s: State,
                           name: string, ds: seq<string>, rs: seq<RunData.RunData>)
    requires s.inResultSet && s.setName == Some(name) && |rs| == |ds|
    requires forall i :: 0 <= i < |ds| ==> IsDataLine(Tokens(ds[i]))
    requires forall i :: 0 <= i < |ds| ==> measure(Some(name), ds[i]) == Success(rs[i])
    ensures Process(parseDate, measure, s, ds) == Success(s.(dataSets := s.dataSets + rs))
  {
    var inv := (u: State) => u.inResultSet && u.setName == Some(name);
    var step := StepWith(parseDate, measure);
    forall u, i | 0 <= i < |ds| && inv(u)
      ensures step(u, ds[i]) == Success(AppendWith()(u, rs[i])) && inv(AppendWith()(u, rs[i]))
    {
      StepData(parseDate, measure, u, ds[i]);
    }
    LineLoop.LoopCollect(step, inv, AppendWith(), s, ds, rs);
    AppendAll(s, rs);
  }

  /** Outside a result set measurement lines are passed over, whatever they hold. */
  lemma {:induction false} OutsideSetIgnored(parseDate: string -> Option<Run.Date>, measure: Measurer,
                                             s: State, ds: seq<string>)
    requires !s.inResultSet
    requires forall i :: 0 <= i < |ds| ==> IsDataLine(Tokens(ds[i]))
    ensures Process(parseDate, measure, s, ds) == Success(s)
    decreases |ds|
  {
    if ds != [] {
      StepData(parseDate, measure, s, ds[0]);
      OutsideSetIgnored(parseDate, measure, s, ds[1..]);
    }
  }

  /** A `begin result` line with a quoted name opens the result set of that name. */
  lemma StepBegin(parseDate: string -> Option<Run.Date>, measure: Measurer, s: State, begin: string)
    requires IsBeginLine(Tokens(begin)) && IsQuoted(JavaText.Trim(Tokens(begin)[3]))
    ensures var n := JavaText.Trim(Tokens(begin)[3]);
            StepWith(parseDate, measure)(s, begin) ==
              Success(s.(setName := Some(n[1..|n| - 1]), inResultSet := true))
  {
    var t := Tokens(begin);
    assert Step(parseDate, measure, s, begin) == Comment(parseDate, s, t);
  }

  /** An `end result` line closes the result set. */
  lemma StepEnd(parseDate: string -> Option<Run.Date>, measure: Measurer, s: State, end: string)
    requires IsEndLine(Tokens(end))
    ensures StepWith(parseDate, measure)(s, end) == Success(s.(setName := None, inResultSet := false))
  {
  }

  /** Processing a `begin result` line alone opens the named result set. */
  lemma BeginProcess(parseDate: string -> Option<Run.Date>, measure: Measurer, s: State, begin: string)
    requires IsBeginLine(Tokens(begin)) && IsQuoted(JavaText.Trim(Tokens(begin)[3]))
    ensures var n := JavaText.Trim(Tokens(begin)[3]);
            Process(parseDate, measure, s, [begin]) ==
              Success(s.(setName := Some(n[1..|n| - 1]), inResultSet := true))
  {
    StepBegin(parseDate, measure, s, begin);
    LineLoop.LoopOne(StepWith(parseDate, measure), s, begin);
  }

  /** Processing an `end result` line alone closes the result set. */
  lemma EndProcess(parseDate: string -> Option<Run.Date>, measure: Measurer, s: State, end: string)
    requires IsEndLine(Tokens(end))
    ensures Process(parseDate, measure, s, [end]) == Success(s.(setName := None, inResultSet := false))
  {
    StepEnd(parseDate, measure, s, end);
    LineLoop.LoopOne(StepWith(parseDate, measure), s, end);
  }

  /** A `begin result` line naming `"X"` (`name` is X without its quotes), measurement
      lines and an `end result` line add one data set per measurement, all measured in
      result set X, and leave the set closed. */
  lemma ResultSetBlock(parseDate: string -> Option<Run.Date>, measure: Measurer, s: State,
                       begin: string, name: string, ds: seq<string>, rs: seq<RunData.RunData>, end: string)
    requires IsBeginLine(Tokens(begin)) && IsQuoted(JavaText.Trim(Tokens(begin)[3]))
    requires var n := JavaText.Trim(Tokens(begin)[3]); name == n[1..|n| - 1]
    requires IsEndLine(Tokens(end))
    requires forall i :: 0 <= i < |ds| ==> IsDataLine(Tokens(ds[i]))
    requires |rs| == |ds|
    requires forall i :: 0 <= i < |ds| ==> measure(Some(name), ds[i]) == Success(rs[i])
    ensures Process(parseDate, measure, s, [begin] + ds + [end]) ==
              Success(s.(dataSets := s.dataSets + rs, setName := None, inResultSet := false))
  {
    var inSet := s.(setName := Some(name), inResultSet := true);
    var filled := inSet.(dataSets := s.dataSets + rs);
    var closed := filled.(setName := None, inResultSet := false);
    BeginProcess(parseDate, measure, s, begin);
    EndProcess(parseDate, measure, filled, end);
    MeasurementsAppend(parseDate, measure, inSet, name, ds, rs);
    LineLoop.LoopThree(StepWith(parseDate, measure), s, [begin], ds, [end], inSet, filled, closed);
  }

  /** One line other than a version line keeps the version; one other than a date line
      keeps the date. */
  lemma StepKeeps(parseDate: string -> Option<Run.Date>, measure: Measurer, s: State, line: string)
    requires Step(parseDate, measure, s, line).Success?
    ensures !IsVersionLine(Tokens(line)) ==> Step(parseDate, measure, s, line).value.version == s.version
    ensures !IsDateLine(Tokens(line)) ==> Step(parseDate, measure, s, line).value.runDate == s.runDate
  {
  }

  /** Only a version line sets the version and only a date line sets the date. */
  lemma {:induction false} VersionAndDateKept(parseDate: string -> Option<Run.Date>, measure: Measurer,
                                              s: State, lines: seq<string>)
    requires Process(parseDate, measure, s, lines).Success?
    ensures (forall i :: 0 <= i < |lines| ==> !IsVersionLine(Tokens(lines[i]))) ==>
              Process(parseDate, measure, s, lines).value.version == s.version
    ensures (forall i :: 0 <= i < |lines| ==> !IsDateLine(Tokens(lines[i]))) ==>
              Process(parseDate, measure, s, lines).value.runDate == s.runDate
    decreases |lines|
  {
    if lines != [] {
      var u := Step(parseDate, measure, s, lines[0]).value;
      assert StepWith(parseDate, measure)(s, lines[0]) == Success(u);
      StepKeeps(parseDate, measure, s, lines[0]);
      VersionAndDateKept(parseDate, measure, u, lines[1..]);
      assert forall i :: 1 <= i < |lines| ==> lines[1..][i - 1] == lines[i];
    }
  }

  /** A file without a version line is rejected; one without a date line is dated at the
      epoch. */
  lemma LoadFileVersionAndDate(f: Factory, lines: seq<string>, parseDate: string -> Option<Run.Date>,
                               md5: string, path: string)
    ensures (forall i :: 0 <= i < |lines| ==> !IsVersionLine(Tokens(lines[i]))) ==>
              LoadFile(f, lines, parseDate, md5, path).Failure?
    ensures LoadFile(f, lines, parseDate, md5, path).Success?
            && (forall i :: 0 <= i < |lines| ==> !IsDateLine(Tokens(lines[i]))) ==>
              LoadFile(f, lines, parseDate, md5, path).value.0.run.runDate == 0
  {
    if Process(parseDate, ProcessResult, Start, lines).Success? {
      VersionAndDateKept(parseDate, ProcessResult, Start, lines);
    }
  }

  /** Runs are numbered 0, 1, … in load order: the first two files loaded by a new
      factory get 0 and 1, and both numbers can be looked up afterwards. */
  lemma SequentialIds(lines1: seq<string>, lines2: seq<string>, parseDate: string -> Option<Run.Date>,
                      md5a: string, md5b: string, path1: string, path2: string)
    requires md5a != md5b
    requires LoadFile(NewFactory, lines1, parseDate, md5a, path1).Success?
    requires LoadFile(LoadFile(NewFactory, lines1, parseDate, md5a, path1).value.1,
                      lines2, parseDate, md5b, path2).Success?
    ensures var (file1, f1) := LoadFile(NewFactory, lines1, parseDate, md5a, path1).value;
            var (file2, f2) := LoadFile(f1, lines2, parseDate, md5b, path2).value;
            GetRunId(f2, file1.run) == Some(0) && GetRunId(f2, file2.run) == Some(1)
            && f2.nextId == 2
  {
    var (file1, f1) := LoadFile(NewFactory, lines1, parseDate, md5a, path1).value;
    var (file2, f2) := LoadFile(f1, lines2, parseDate, md5b, path2).value;
    assert f1 == Factory(1, map[md5a := 0]);
    assert f2 == Factory(2, map[md5a := 0, md5b := 1]);
  }
}
