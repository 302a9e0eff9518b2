/** `HPCCFactory`: reads the summary section of an HPC Challenge output file into a run
    holding one data set. The summary is a block of `key=value` lines between two marker
    lines; the divider, the end-of-tests line and the date line follow it. */
module HpccFactory {
  import opened Wrappers
  import JavaText
  import opened JavaNumber
  import Value
  import Rank
  import RunData
  import Run
  import HpccFileChecker

  const StartSummary: string := "Begin of Summary section."
  const EndSummary: string := "End of Summary section."
  const EndOfChallenge: string := "End of HPC Challenge tests."
  const DatePrefix: string := "Current time ("
  const DateInfix: string := ") is "
  const ApplicationName: string := "HPCC"
  const VersionMajor: string := "VersionMajor"
  const VersionMinor: string := "VersionMinor"
  const VersionMicro: string := "VersionMicro"
  const VersionRelease: string := "VersionRelease"

  /** The summary keys stored as parameters, in declaration order. */
  const ParameterNames: seq<string> := [
    "sizeof_char", "sizeof_short", "sizeof_int", "sizeof_long", "sizeof_void_ptr", "sizeof_size_t",
    "sizeof_float", "sizeof_double", "sizeof_s64Int", "sizeof_u64Int",
    "sizeof_struct_double_double", "CommWorldProcs", "HPL_N", "HPL_NB", "HPL_nprow", "HPL_npcol",
    "HPL_depth", "HPL_nbdiv", "HPL_nbmin", "HPL_cpfact", "HPL_crfact", "HPL_ctop", "HPL_order",
    "HPLMaxProcs", "HPLMinProcs", "DGEMM_N", "PTRANS_residual", "PTRANS_n", "PTRANS_nb",
    "PTRANS_nprow", "PTRANS_npcol", "MPIRandomAccess_LCG_TimeBound",
    "MPIRandomAccess_LCG_Algorithm", "MPIRandomAccess_N", "MPIRandomAccess_TimeBound",
    "MPIRandomAccess_Algorithm", "RandomAccess_LCG_N", "RandomAccess_N", "STREAM_VectorSize",
    "STREAM_Threads", "FFT_N", "MPIFFT_Procs", "FFTEnblk", "FFTEnp", "FFTEl2size", "M_OPENMP",
    "omp_get_num_threads", "omp_get_max_threads", "omp_get_num_procs", "MemProc", "MemSpec",
    "MemVal", "CPS_HPCC_FFT_235", "CPS_HPCC_FFTW_ESTIMATE", "CPS_HPCC_MEMALLCTR",
    "CPS_HPL_USE_GETPROCESSTIMES", "CPS_RA_SANDIA_NOPT", "CPS_RA_SANDIA_OPT2", "CPS_USING_FFTW"
  ]

  /** The summary keys stored as results, in declaration order. */
  const ResultNames: seq<string> := [
    "MPI_Wtick", "HPL_Tflops", "HPL_time", "HPL_eps", "HPL_RnormI", "HPL_Anorm1", "HPL_AnormI",
    "HPL_Xnorm1", "HPL_XnormI", "HPL_BnormI", "HPL_dMACH_EPS", "HPL_dMACH_SFMIN", "HPL_dMACH_BASE",
    "HPL_dMACH_PREC", "HPL_dMACH_MLEN", "HPL_dMACH_RND", "HPL_dMACH_EMIN", "HPL_dMACH_RMIN",
    "HPL_dMACH_EMAX", "HPL_dMACH_RMAX", "HPL_sMACH_EPS", "HPL_sMACH_SFMIN", "HPL_sMACH_BASE",
    "HPL_sMACH_PREC", "HPL_sMACH_MLEN", "HPL_sMACH_RND", "HPL_sMACH_EMIN", "HPL_sMACH_RMIN",
    "HPL_sMACH_EMAX", "HPL_sMACH_RMAX", "dweps", "sweps", "StarDGEMM_Gflops", "StarSTREAM_Copy",
    "StarSTREAM_Scale", "StarSTREAM_Add", "MPIFFT_N", "MPIFFT_Gflops", "MPIFFT_maxErr",
    "PTRANS_GBs", "PTRANS_time", "MPIFFT_time0", "MPIFFT_time1", "MPIFFT_time2", "MPIFFT_time3",
    "MPIFFT_time4", "MPIFFT_time5", "MPIFFT_time6", "StarSTREAM_Triad", "SingleSTREAM_Copy",
    "SingleSTREAM_Scale", "SingleSTREAM_Add", "SingleSTREAM_Triad", "StarFFT_Gflops",
    "SingleFFT_Gflops", "SingleDGEMM_Gflops", "MPIRandomAccess_LCG_N", "MPIRandomAccess_LCG_time",
    "MPIRandomAccess_LCG_CheckTime", "MPIRandomAccess_LCG_Errors",
    "MPIRandomAccess_LCG_ErrorsFraction", "MPIRandomAccess_LCG_ExeUpdates",
    "MPIRandomAccess_LCG_GUPs", "MPIRandomAccess_time", "MPIRandomAccess_CheckTime",
    "MPIRandomAccess_Errors", "MPIRandomAccess_ErrorsFraction", "MPIRandomAccess_ExeUpdates",
    "MPIRandomAccess_GUPs", "StarRandomAccess_LCG_GUPs", "SingleRandomAccess_LCG_GUPs",
    "StarRandomAccess_GUPs", "SingleRandomAccess_GUPs", "MaxPingPongLatency_usec",
    "RandomlyOrderedRingLatency_usec", "MinPingPongBandwidth_GBytes",
    "RandomlyOrderedRingBandwidth_GBytes", "NaturallyOrderedRingBandwidth_GBytes",
    "MinPingPongLatency_usec", "AvgPingPongLatency_usec", "MaxPingPongBandwidth_GBytes",
    "AvgPingPongBandwidth_GBytes", "NaturallyOrderedRingLatency_usec"
  ]

  /** The only HPCC release the loader knows. */
  datatype HpccVersion = V1_4_1

  // ---------------------------------------------------------------------------
  // The summary line pattern `(\S+)=(\S+)`, matched against the whole line
  // ---------------------------------------------------------------------------

  /** The largest `j` in `[1, i]` with an `=` at `line[j]`. */
  function LastEquals(line: string, i: int): (r: Option<nat>)
    requires i < |line|
    ensures r.Some? ==> 1 <= r.value <= i && line[r.value] == '='
                        && forall j :: r.value < j <= i ==> line[j] != '='
    ensures r.None? ==> forall j :: 1 <= j <= i ==> line[j] != '='
    decreases i
  {
    if i < 1 then None
    else if line[i] == '=' then Some(i)
    else LastEquals(line, i - 1)
  }

  /** `matches()` of `(\S+)=(\S+)`: the line has no white space and the greedy first
      group ends before the last `=` that leaves a non-empty second group. */
  function MatchLine(line: string): Option<(string, string)> {
    if !JavaText.NoneIn(line, JavaText.RegexSpaces) || |line| < 3 then None
    else
      match LastEquals(line, |line| - 2)
      case None => None
      case Some(j) => Some((line[..j], line[j + 1..]))
  }

  /** A line that matches has no white space and splits into a non-empty key and a
      non-empty value around one `=`, the value holding no `=` before its last character. */
  lemma MatchLineShape(line: string)
    requires MatchLine(line).Some?
    ensures var kv := MatchLine(line).value;
            && JavaText.NoneIn(line, JavaText.RegexSpaces)
            && line == kv.0 + "=" + kv.1 && kv.0 != [] && kv.1 != []
            && forall j :: 0 <= j < |kv.1| - 1 ==> kv.1[j] != '='
  {
    var j := LastEquals(line, |line| - 2).value;
    assert line == line[..j] + "=" + line[j + 1..];
  }

  /** A line without white space matches exactly when it has an `=` with a character on
      each side. */
  lemma MatchLineIff(line: string)
    ensures MatchLine(line).Some? <==>
              (JavaText.NoneIn(line, JavaText.RegexSpaces) && exists j :: 1 <= j <= |line| - 2 && line[j] == '=')
  {
  }

  /** A key and a value without white space, the value holding no `=` before its last
      character, are read back from `key=value`. */
  lemma MatchLineJoin(k: string, v: string)
    requires k != [] && v != []
    requires JavaText.NoneIn(k, JavaText.RegexSpaces) && JavaText.NoneIn(v, JavaText.RegexSpaces)
    requires forall j :: 0 <= j < |v| - 1 ==> v[j] != '='
    ensures MatchLine(k + "=" + v) == Some((k, v))
  {
    var line := k + "=" + v;
    assert line[|k|] == '=';
    assert forall j :: |k| < j <= |line| - 2 ==> line[j] == v[j - |k| - 1];
    assert JavaText.NoneIn(line, JavaText.RegexSpaces) by {
      assert forall j :: 0 <= j < |line| ==> line[j] == if j < |k| then k[j] else if j == |k| then '=' else v[j - |k| - 1];
    }
    assert LastEquals(line, |line| - 2).Some?;
    var j := LastEquals(line, |line| - 2).value;
    assert j == |k|;
    assert line[..j] == k && line[j + 1..] == v;
  }

  // ---------------------------------------------------------------------------
  // skipToSummary and processSummary
  // ---------------------------------------------------------------------------

  /** The index of the first line equal to `target` at or after `from`. */
  function IndexOf(lines: seq<string>, target: string, from: nat): (r: Option<nat>)
    ensures r.Some? ==> from <= r.value < |lines| && lines[r.value] == target
                        && forall j :: from <= j < r.value ==> lines[j] != target
    ensures r.None? ==> forall j :: from <= j < |lines| ==> lines[j] != target
    decreases |lines| - from
  {
    if from >= |lines| then None
    else if lines[from] == target then Some(from)
    else IndexOf(lines, target, from + 1)
  }

  /** `skipToSummary`: the position just after the first start-of-summary line; a file
      without one is an error. */
  function SkipToSummary(lines: seq<string>): (r: Result<int>)
    ensures r.Success? <==> StartSummary in lines
    ensures r.Success? ==> 1 <= r.value <= |lines| && lines[r.value - 1] == StartSummary
                           && StartSummary !in lines[..r.value - 1]
  {
    match IndexOf(lines, StartSummary, 0)
    case None => Failure("Malformed HPCC file: End of file encountered whilst skipping summary")
    case Some(i) => Success(i + 1)
  }

  /** The map after putting each pair in order: a later pair overwrites an earlier one with
      the same key. */
  function PutAll(acc: map<string, string>, ps: seq<(string, string)>): (m: map<string, string>)
    decreases |ps|
  {
    if ps == [] then acc else PutAll(acc[ps[0].0 := ps[0].1], ps[1..])
  }

  /** Every line in `lines` matches the summary pattern. */
  predicate AllEntries(lines: seq<string>) {
    forall j :: 0 <= j < |lines| ==> MatchLine(lines[j]).Some?
  }

  /** The key/value pairs of summary lines, in order. */
  function Entries(lines: seq<string>): (r: seq<(string, string)>)
    requires AllEntries(lines)
    ensures |r| == |lines|
  {
    seq(|lines|, j requires 0 <= j < |lines| => MatchLine(lines[j]).value)
  }

  /** The end-of-summary marker has spaces, so it never matches the summary pattern. */
  lemma EndSummaryNotEntry()
    ensures MatchLine(EndSummary).None?
  {
    assert EndSummary[3] == ' ';
  }

  /** `processSummary` from line `pos`, with the entries so far in `acc`: every line up to
      the end-of-summary line must match; the result is the map and the position after
      the end line. A non-matching line or the end of the file first is an error. */
  function ReadSummary(lines: seq<string>, pos: nat, acc: map<string, string>): (r: Result<(map<string, string>, int)>)
    ensures r.Success? ==> pos < r.value.1 <= |lines| && lines[r.value.1 - 1] == EndSummary
                           && forall j :: pos <= j < r.value.1 - 1 ==> MatchLine(lines[j]).Some?
    decreases |lines| - pos
  {
    if pos >= |lines| then Failure("Malformed HPCC file: End of file encountered whilst skipping summary")
    else if lines[pos] == EndSummary then Success((acc, pos + 1))
    else
      match MatchLine(lines[pos])
      case None => Failure("Malformed HPCC file: Invalid summary line " + lines[pos])
      case Some(kv) => ReadSummary(lines, pos + 1, acc[kv.0 := kv.1])
  }

  /** The key/value pairs of the lines from `pos` up to the end-of-summary line, as the
      reader meets them. */
  function SummaryPairs(lines: seq<string>, pos: nat): seq<(string, string)>
    decreases |lines| - pos
  {
    if pos >= |lines| || lines[pos] == EndSummary then []
    else
      match MatchLine(lines[pos])
      case None => []
      case Some(kv) => [kv] + SummaryPairs(lines, pos + 1)
  }

  /** The map read is the entries of the summary lines put in order. */
  lemma ReadSummaryMap(lines: seq<string>, pos: nat, acc: map<string, string>)
    requires ReadSummary(lines, pos, acc).Success?
    ensures var r := ReadSummary(lines, pos, acc).value;
            AllEntries(lines[pos..r.1 - 1]) && r.0 == PutAll(acc, Entries(lines[pos..r.1 - 1]))
  {
    ReadSummaryPutAll(lines, pos, acc);
    SummaryPairsEntries(lines, pos, acc);
  }

  /** The map read is the pairs met put in order. */
  lemma {:induction false} ReadSummaryPutAll(lines: seq<string>, pos: nat, acc: map<string, string>)
    requires ReadSummary(lines, pos, acc).Success?
    ensures ReadSummary(lines, pos, acc).value.0 == PutAll(acc, SummaryPairs(lines, pos))
    decreases |lines| - pos
  {
    if lines[pos] != EndSummary {
      var kv := MatchLine(lines[pos]).value;
      ReadSummaryPutAll(lines, pos + 1, acc[kv.0 := kv.1]);
      PutAllCons(acc, kv, SummaryPairs(lines, pos + 1));
    }
  }

  /** The pairs met are the entries of the lines before the end-of-summary line. */
  lemma SummaryPairsEntries(lines: seq<string>, pos: nat, acc: map<string, string>)
    requires ReadSummary(lines, pos, acc).Success?
    ensures var e := ReadSummary(lines, pos, acc).value.1;
            AllEntries(lines[pos..e - 1]) && SummaryPairs(lines, pos) == Entries(lines[pos..e - 1])
  {
    var e := ReadSummary(lines, pos, acc).value.1;
    var ps := SummaryPairs(lines, pos);
    var block := lines[pos..e - 1];
    SummaryPairsAt(lines, pos, acc);
    forall i | 0 <= i < |block|
      ensures MatchLine(block[i]) == Some(ps[i])
    {
      assert block[i] == lines[pos + i];
    }
    assert Entries(block) == ps;
  }

  /** Pair `i` met is the entry of line `pos + i`, and there is one per line before the
      end-of-summary line. */
  lemma {:induction false} SummaryPairsAt(lines: seq<string>, pos: nat, acc: map<string, string>)
    requires ReadSummary(lines, pos, acc).Success?
    ensures var ps := SummaryPairs(lines, pos);
            && |ps| == ReadSummary(lines, pos, acc).value.1 - 1 - pos
            && forall i :: 0 <= i < |ps| ==> MatchLine(lines[pos + i]) == Some(ps[i])
    decreases |lines| - pos
  {
    if lines[pos] != EndSummary {
      var kv := MatchLine(lines[pos]).value;
      SummaryPairsAt(lines, pos + 1, acc[kv.0 := kv.1]);
      var ps := SummaryPairs(lines, pos);
      var rest := SummaryPairs(lines, pos + 1);
      assert ps == [kv] + rest;
      forall i | 1 <= i < |ps|
        ensures MatchLine(lines[pos + i]) == Some(ps[i])
      {
        assert ps[i] == rest[i - 1] && pos + i == pos + 1 + (i - 1);
      }
    }
  }

  /** Putting a first pair and then the rest. */
  lemma PutAllCons(acc: map<string, string>, kv: (string, string), ps: seq<(string, string)>)
    ensures PutAll(acc, [kv] + ps) == PutAll(acc[kv.0 := kv.1], ps)
  {
    assert ([kv] + ps)[1..] == ps;
  }

  /** The entries of a block are its first line's entry followed by the rest's. */
  lemma ReadSummaryCons(lines: seq<string>, pos: nat, e: nat)
    requires pos < e <= |lines|
    requires MatchLine(lines[pos]).Some? && AllEntries(lines[pos + 1..e])
    ensures AllEntries(lines[pos..e])
    ensures Entries(lines[pos..e]) == [MatchLine(lines[pos]).value] + Entries(lines[pos + 1..e])
  {
    assert forall j :: 1 <= j < e - pos ==> lines[pos..e][j] == lines[pos + 1..e][j - 1];
  }

  /** The summary is read exactly when some end-of-summary line follows `pos` with only
      summary lines before it. */
  lemma {:induction false} ReadSummarySucceeds(lines: seq<string>, pos: nat, acc: map<string, string>, e: nat)
    requires pos <= e < |lines| && lines[e] == EndSummary
    requires forall j :: pos <= j < e ==> MatchLine(lines[j]).Some?
    ensures ReadSummary(lines, pos, acc).Success? && ReadSummary(lines, pos, acc).value.1 == e + 1
    decreases e - pos
  {
    if pos < e {
      assert lines[pos] != EndSummary by { EndSummaryNotEntry(); }
      var kv := MatchLine(lines[pos]).value;
      ReadSummarySucceeds(lines, pos + 1, acc[kv.0 := kv.1], e);
    }
  }

  /** A file in which no end-of-summary line follows `pos` is an error. */
  lemma {:induction false} ReadSummaryNeedsEnd(lines: seq<string>, pos: nat, acc: map<string, string>)
    requires forall j :: pos <= j < |lines| ==> lines[j] != EndSummary
    ensures ReadSummary(lines, pos, acc).Failure?
  {
  }

  /** Putting pairs never drops a key, and a key no pair names keeps its value. */
  lemma {:induction false} PutAllUntouched(acc: map<string, string>, ps: seq<(string, string)>, k: string)
    requires forall j :: 0 <= j < |ps| ==> ps[j].0 != k
    ensures k in PutAll(acc, ps) <==> k in acc
    ensures k in acc ==> PutAll(acc, ps)[k] == acc[k]
    decreases |ps|
  {
    if ps != [] {
      PutAllUntouched(acc[ps[0].0 := ps[0].1], ps[1..], k);
    }
  }

  /** The last pair naming a key gives its value. */
  lemma {:induction false} PutAllLastWins(acc: map<string, string>, ps: seq<(string, string)>, k: string, i: nat)
    requires i < |ps| && ps[i].0 == k
    requires forall j :: i < j < |ps| ==> ps[j].0 != k
    ensures k in PutAll(acc, ps) && PutAll(acc, ps)[k] == ps[i].1
    decreases |ps|
  {
    var acc1 := acc[ps[0].0 := ps[0].1];
    if i == 0 {
      PutAllUntouched(acc1, ps[1..], k);
    } else {
      PutAllLastWins(acc1, ps[1..], k, i - 1);
    }
  }

  // ---------------------------------------------------------------------------
  // getDate
  // ---------------------------------------------------------------------------

  /** The characters `.` does not match by default: the line terminators. */
  const LineTerminators: set<char> := {'\n', '\r', 0x85 as char, 0x2028 as char, 0x2029 as char}

  /** The number of leading decimal digits of `s`. */
  function DigitRun(s: string): (n: nat)
    ensures n <= |s| && JavaText.AllDigits(s[..n]) && (n < |s| ==> !JavaText.IsDigit(s[n]))
  {
    if s == [] || !JavaText.IsDigit(s[0]) then 0
    else
      var n := 1 + DigitRun(s[1..]);
      assert s[..n] == [s[0]] + s[1..][..n - 1];
      n
  }

  /** `matches()` of `Current time \(\d+\) is (.*)`: the first group, when the line has
      that shape. The digits end at the first non-digit, so the match is unique. */
  function MatchDate(line: string): (r: Option<string>)
    ensures r.Some? ==> JavaText.NoneIn(r.value, LineTerminators)
                        && JavaText.StartsWith(line, DatePrefix) && JavaText.EndsWith(line, r.value)
  {
    if !JavaText.StartsWith(line, DatePrefix) then None
    else
      var rest := line[|DatePrefix|..];
      var n := DigitRun(rest);
      if n == 0 || !JavaText.StartsWith(rest[n..], DateInfix) then None
      else
        var g := rest[n + |DateInfix|..];
        if JavaText.NoneIn(g, LineTerminators) then Some(g) else None
  }

  /** The date text is read back from a line built from a number and the text. */
  lemma MatchDateJoin(digits: string, g: string)
    requires digits != [] && JavaText.AllDigits(digits) && JavaText.NoneIn(g, LineTerminators)
    ensures MatchDate(DatePrefix + digits + DateInfix + g) == Some(g)
  {
    var tail := DateInfix + g;
    var rest := digits + tail;
    var line := DatePrefix + rest;
    assert line == DatePrefix + digits + DateInfix + g;
    assert line[..|DatePrefix|] == DatePrefix && line[|DatePrefix|..] == rest;
    assert tail[0] == ')';
    DigitRunOf(digits, tail);
    assert rest[|digits|..] == tail;
    assert tail[..|DateInfix|] == DateInfix && tail[|DateInfix|..] == g;
  }

  /** Digits followed by a non-digit: the run is exactly the digits. */
  lemma DigitRunOf(digits: string, tail: string)
    requires JavaText.AllDigits(digits)
    requires tail != [] && !JavaText.IsDigit(tail[0])
    ensures DigitRun(digits + tail) == |digits|
  {
    assert (digits + tail)[|digits|] == tail[0];
  }

  /** `getDate` from line `pos`: the divider, the end-of-tests line and a date line must
      follow in that order. A missing third line reaches the matcher as null, a
      `NullPointerException`; unparsable date text is an error. */
  function GetDate(lines: seq<string>, pos: nat, parseDate: string -> Option<Run.Date>): (r: Result<Run.Date>)
    ensures r.Success? <==> pos + 2 < |lines| && lines[pos] == HpccFileChecker.Divider
                            && lines[pos + 1] == EndOfChallenge && MatchDate(lines[pos + 2]).Some?
                            && parseDate(MatchDate(lines[pos + 2]).value).Some?
    ensures r.Success? ==> r.value == parseDate(MatchDate(lines[pos + 2]).value).value
  {
    if pos >= |lines| || lines[pos] != HpccFileChecker.Divider then
      Failure("Malformed HPCC file: Expecting the divider line")
    else if pos + 1 >= |lines| || lines[pos + 1] != EndOfChallenge then
      Failure("Malformed HPCC file: Expecting " + EndOfChallenge)
    else if pos + 2 >= |lines| then Failure("NullPointerException")
    else
      match MatchDate(lines[pos + 2])
      case None => Failure("Malformed HPCC file: Invalid date line " + lines[pos + 2])
      case Some(g) =>
        match parseDate(g)
        case None => Failure("Malformed HPCC file: Invalid date " + g)
        case Some(d) => Success(d)
  }

  /** Only the three lines from `pos` are examined. */
  lemma GetDateLocal(a: seq<string>, b: seq<string>, pos: nat, parseDate: string -> Option<Run.Date>)
    requires pos + 3 <= |a| && pos + 3 <= |b| && a[pos..pos + 3] == b[pos..pos + 3]
    ensures GetDate(a, pos, parseDate) == GetDate(b, pos, parseDate)
  {
    assert a[pos] == a[pos..pos + 3][0] == b[pos];
    assert a[pos + 1] == a[pos..pos + 3][1] == b[pos + 1];
    assert a[pos + 2] == a[pos..pos + 3][2] == b[pos + 2];
  }

  // ---------------------------------------------------------------------------
  // getApplicationName, getParameters, getResults
  // ---------------------------------------------------------------------------

  /** `getApplicationName`: the name and the four version fields of the summary; each
      missing field is an error. */
  function GetApplicationName(summary: map<string, string>): (r: Result<string>)
    ensures r.Success? <==> VersionMajor in summary && VersionMinor in summary
                            && VersionMicro in summary && VersionRelease in summary
    ensures r.Success? ==>
              JavaText.StartsWith(r.value, ApplicationName + " v")
              && r.value == ApplicationName + " v" + summary[VersionMajor] + "." + summary[VersionMinor]
                            + "." + summary[VersionMicro] + " " + summary[VersionRelease]
  {
    if VersionMajor !in summary then Failure("Malformed HPCC file: No version major found")
    else if VersionMinor !in summary then Failure("Malformed HPCC file: No version minor found")
    else if VersionMicro !in summary then Failure("Malformed HPCC file: No version micro found")
    else if VersionRelease !in summary then Failure("Malformed HPCC file: No version release found")
    else
      var name := ApplicationName + " v" + summary[VersionMajor] + "." + summary[VersionMinor]
                  + "." + summary[VersionMicro] + " " + summary[VersionRelease];
      assert name == (ApplicationName + " v") + (summary[VersionMajor] + "." + summary[VersionMinor]
                  + "." + summary[VersionMicro] + " " + summary[VersionRelease]);
      Success(name)
  }

  /** The release 1.4.1 with release tag `f` is named `HPCC v1.4.1 f`. */
  lemma ApplicationNameExample(summary: map<string, string>)
    requires VersionMajor in summary && summary[VersionMajor] == "1"
    requires VersionMinor in summary && summary[VersionMinor] == "4"
    requires VersionMicro in summary && summary[VersionMicro] == "1"
    requires VersionRelease in summary && summary[VersionRelease] == "f"
    ensures GetApplicationName(summary) == Success("HPCC v1.4.1 f")
  {
    assert ApplicationName + " v" + "1" + "." + "4" + "." + "1" + " " + "f" == "HPCC v1.4.1 f";
  }

  /** A parameter's value: an `Integer` when `Integer.parseInt` accepts the text, the text
      itself otherwise. */
  function ParamDatum(text: string): (d: Value.Datum)
    ensures JavaText.ParseInt(text).Some? ==> d == Value.IntegerVal(JavaText.ParseInt(text).value)
    ensures JavaText.ParseInt(text).None? ==> d == Value.StringVal(text)
  {
    match JavaText.ParseInt(text)
    case Some(n) => Value.IntegerVal(n)
    case None => Value.StringVal(text)
  }

  /** `getParameters` over the key list `names`: one parameter per key, in order, with rank
      UNKNOWN; the first missing key is an error. */
  function GetParameters(summary: map<string, string>, names: seq<string>): (r: Result<seq<Value.Value>>)
    ensures r.Success? <==> forall i :: 0 <= i < |names| ==> names[i] in summary
    ensures r.Success? ==> |r.value| == |names|
                           && forall i :: 0 <= i < |names| ==>
                                r.value[i] == Value.Simple(names[i], Rank.Unknown, Some(ParamDatum(summary[names[i]])))
    decreases |names|
  {
    if names == [] then Success([])
    else if names[0] !in summary then Failure("Malformed HPCC file: Parameter " + names[0] + " not found")
    else
      var p := Value.Simple(names[0], Rank.Unknown, Some(ParamDatum(summary[names[0]])));
      match GetParameters(summary, names[1..])
      case Failure(e) => Failure(e)
      case Success(rest) =>
        assert forall i :: 1 <= i < |names| ==> names[i] == names[1..][i - 1];
        Success([p] + rest)
  }

  /** A result's value: `inf` is the largest finite double, anything else goes through
      `Double.parseDouble`. */
  function ResultDouble(text: string): Option<Dbl> {
    if text == "inf" then Some(Finite(DoubleMax)) else ParseDouble(text)
  }

  /** A result read from the summary: error 0, no error type, rank UNKNOWN, count 1 and
      pause count 0. */
  function ResultValue(name: string, d: Dbl): Value.Value {
    Value.Value(name, Some(Value.DoubleVal(d)), Some(Value.DoubleVal(Finite(0.0))),
                Some(Value.NoError), Rank.Unknown, Some(1), Some(0))
  }

  /** `getResults` over the key list `names`, reading each value with `number`
      (`ResultDouble` in the loader): one result per key, in order; the first missing key
      or non-number is an error. */
  function GetResults(number: string -> Option<Dbl>, summary: map<string, string>,
                      names: seq<string>): (r: Result<seq<Value.Value>>)
    ensures r.Success? <==> forall i :: 0 <= i < |names| ==>
                              names[i] in summary && number(summary[names[i]]).Some?
    ensures r.Success? ==> |r.value| == |names|
                           && forall i :: 0 <= i < |names| ==>
                                r.value[i] == ResultValue(names[i], number(summary[names[i]]).value)
    decreases |names|
  {
    if names == [] then Success([])
    else if names[0] !in summary then Failure("Malformed HPCC file: Result " + names[0] + " not found")
    else
      match number(summary[names[0]])
      case None => Failure("Malformed HPCC file: Non number found for result " + names[0])
      case Some(d) =>
        match GetResults(number, summary, names[1..])
        case Failure(e) => Failure(e)
        case Success(rest) =>
          assert forall i :: 1 <= i < |names| ==> names[i] == names[1..][i - 1];
          Success([ResultValue(names[0], d)] + rest)
  }

  /** Two summaries that agree on the listed keys give the same parameters, or the same
      error: the other keys of the summary are never looked at. */
  lemma {:induction false} ParametersLocal(s1: map<string, string>, s2: map<string, string>, names: seq<string>)
    requires forall i :: 0 <= i < |names| ==>
               (names[i] in s1 <==> names[i] in s2) && (names[i] in s1 ==> s1[names[i]] == s2[names[i]])
    ensures GetParameters(s1, names) == GetParameters(s2, names)
    decreases |names|
  {
    if names != [] {
      assert forall i :: 1 <= i < |names| ==> names[1..][i - 1] == names[i];
      ParametersLocal(s1, s2, names[1..]);
    }
  }

  /** Two summaries that agree on the listed keys give the same results, or the same
      error. */
  lemma {:induction false} ResultsLocal(number: string -> Option<Dbl>, s1: map<string, string>,
                                        s2: map<string, string>, names: seq<string>)
    requires forall i :: 0 <= i < |names| ==>
               (names[i] in s1 <==> names[i] in s2) && (names[i] in s1 ==> s1[names[i]] == s2[names[i]])
    ensures GetResults(number, s1, names) == GetResults(number, s2, names)
    decreases |names|
  {
    if names != [] {
      assert forall i :: 1 <= i < |names| ==> names[1..][i - 1] == names[i];
      ResultsLocal(number, s1, s2, names[1..]);
    }
  }

  /** The error of a failed parameter read names the first listed key missing from the
      summary. */
  lemma {:induction false} ParametersFirstMissing(summary: map<string, string>, names: seq<string>, j: nat)
    requires j < |names| && names[j] !in summary
    requires forall i :: 0 <= i < j ==> names[i] in summary
    ensures GetParameters(summary, names) == Failure("Malformed HPCC file: Parameter " + names[j] + " not found")
    decreases j
  {
    if j > 0 {
      assert forall i :: 0 <= i < j - 1 ==> names[1..][i] == names[i + 1];
      ParametersFirstMissing(summary, names[1..], j - 1);
    }
  }

  // ---------------------------------------------------------------------------
  // loadFile
  // ---------------------------------------------------------------------------

  /** What `loadFile` returns: the run, the application name and the HPCC version. */
  datatype HpccFile = HpccFile(run: Run.Run, applicationName: string, version: HpccVersion)

  /** The summary of a file and the position after it. */
  function Summary(lines: seq<string>): (r: Result<(map<string, string>, int)>)
    ensures r.Success? ==> SkipToSummary(lines).Success?
                           && r == ReadSummary(lines, SkipToSummary(lines).value, map[])
  {
    var p :- SkipToSummary(lines);
    ReadSummary(lines, p, map[])
  }

  /** The run built once the summary and date are read: the application name, then one
      data set of the parameters and results. */
  function Assemble(summary: map<string, string>, date: Run.Date, md5: string, path: string): (r: Result<HpccFile>)
    ensures r.Success? <==> GetApplicationName(summary).Success?
                            && GetParameters(summary, ParameterNames).Success?
                            && GetResults(ResultDouble, summary, ResultNames).Success?
    ensures r.Success? ==>
              r.value.applicationName == GetApplicationName(summary).value
              && r.value.run.runId == Some(md5) && r.value.run.file == Some(path)
              && r.value.run.runDate == date && r.value.run.flags == [] && r.value.version == V1_4_1
              && r.value.run.dataSets ==
                   [RunData.RunData(GetParameters(summary, ParameterNames).value,
                                    GetResults(ResultDouble, summary, ResultNames).value)]
  {
    var app :- GetApplicationName(summary);
    var run := Run.NewLoaded(Some(md5), Some(date), Some(path), []).value;
    var params :- GetParameters(summary, ParameterNames);
    var results :- GetResults(ResultDouble, summary, ResultNames);
    Success(HpccFile(Run.AddDataSet(run, RunData.RunData(params, results)), app, V1_4_1))
  }

  /** `loadFile`: the summary, the date after it, then the run. */
  function LoadFile(lines: seq<string>, parseDate: string -> Option<Run.Date>, md5: string,
                    path: string): (r: Result<HpccFile>)
    ensures r.Success? ==>
              Summary(lines).Success?
              && GetDate(lines, Summary(lines).value.1, parseDate).Success?
              && r == Assemble(Summary(lines).value.0, GetDate(lines, Summary(lines).value.1, parseDate).value,
                               md5, path)
    ensures (Summary(lines).Success? && GetDate(lines, Summary(lines).value.1, parseDate).Success?
             && Assemble(Summary(lines).value.0, GetDate(lines, Summary(lines).value.1, parseDate).value,
                         md5, path).Success?) ==> r.Success?
  {
    var (summary, q) :- Summary(lines);
    var date :- GetDate(lines, q, parseDate);
    Assemble(summary, date, md5, path)
  }

  /** A loaded file holds exactly one data set, and it is the parameters and the results
      read from the file's summary under the listed keys. */
  lemma LoadedDataSet(lines: seq<string>, parseDate: string -> Option<Run.Date>, md5: string, path: string)
    requires LoadFile(lines, parseDate, md5, path).Success?
    ensures Summary(lines).Success?
    ensures var summary := Summary(lines).value.0;
            GetParameters(summary, ParameterNames).Success? && GetResults(ResultDouble, summary, ResultNames).Success?
            && LoadFile(lines, parseDate, md5, path).value.run.dataSets
               == [RunData.RunData(GetParameters(summary, ParameterNames).value,
                                   GetResults(ResultDouble, summary, ResultNames).value)]
  {
  }
}
