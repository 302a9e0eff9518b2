/** The Java PMTM loader's line readers: parameter, timer and overhead lines, ranks, the
    version line, version parts and clock speeds. A line is split into tokens on commas
    with the surrounding whitespace, and every field is gated on the file's version. */
module PmtmFactory {
  import opened Wrappers
  import JavaText
  import opened JavaNumber
  import Rank
  import Value
  import PmtmVersion

  type Version = PmtmVersion.Version

  const Header: string := "Performance Modelling Timing File"
  const VersionTag: string := "PMTM Version"
  const OverheadPrefix: string := "Timer overhead for "

  /** The count and pause count every overhead carries. */
  const OverheadCount: int := 10000

  // ---------------------------------------------------------------------------
  // Numbers
  // ---------------------------------------------------------------------------

  /** `FLOAT_REGEX` checked, then `Double.parseDouble`, as the overhead and parameter
      readers do it as written. The regular expression admits `INF`, which `parseDouble`
      rejects. */
  function CheckedParseDouble(s: string): (r: Result<Dbl>)
    ensures r.Success? ==> IsPmtmFloatText(s) && ParseDouble(s) == Some(r.value)
  {
    if !IsPmtmFloatText(s) then Failure("IOException: invalid double " + s)
    else match ParseDouble(s)
      case Some(d) => Success(d)
      case None => Failure("NumberFormatException: " + s)
  }

  /** The private `parseDouble` as written: the regular expression, then `INF` and `-INF`
      by hand, then `Double.parseDouble`. A leading `+` on `INF` slips through. */
  function ParseDoubleAsWritten(s: string): (r: Result<Dbl>)
    ensures r.Success? ==> IsPmtmFloatText(s)
  {
    if !IsPmtmFloatText(s) then Failure("IOException: invalid double " + s)
    else if s == "INF" then Success(PosInf)
    else if s == "-INF" then Success(NegInf)
    else match ParseDouble(s)
      case Some(d) => Success(d)
      case None => Failure("NumberFormatException: " + s)
  }

  /** What the float syntax promises: an optionally signed `INF` is an infinity, anything
      else it admits is its exact decimal value, and nothing else is a number. */
  function PmtmDouble(s: string): (r: Result<Dbl>)
    ensures r.Success? <==> IsPmtmFloatText(s)
    ensures r.Success? && Sign(s).1 == "INF" ==> r.value == (if Sign(s).0 then NegInf else PosInf)
    ensures r.Success? && Sign(s).1 != "INF" ==> r.value == Finite(FloatTextValue(s))
  {
    if !IsPmtmFloatText(s) then Failure("IOException: invalid double " + s)
    else if Sign(s).1 == "INF" then Success(if Sign(s).0 then NegInf else PosInf)
    else Success(Finite(FloatTextValue(s)))
  }

  /** Away from infinities the corrected reader agrees with `Double.parseDouble`. */
  lemma PmtmDoubleFinite(s: string)
    requires IsFloatText(s)
    ensures PmtmDouble(s) == CheckedParseDouble(s) == Success(Finite(FloatTextValue(s)))
  {
    ParseDoubleFloatText(s);
    FloatTextNotInf(s);
  }

  /** The written `parseDouble` agrees with the corrected one everywhere except `+INF`. */
  lemma ParseDoubleAsWrittenAgrees(s: string)
    requires s != "+INF"
    ensures ParseDoubleAsWritten(s) == PmtmDouble(s)
  {
    if !IsPmtmFloatText(s) {
    } else if Sign(s).1 == "INF" {
      assert s == "INF" || s == "-INF";
    } else {
      PmtmDoubleFinite(s);
      assert s != "INF" && s != "-INF";
    }
  }

  lemma PlusInfTrimmed()
    ensures JavaText.Trim("+INF") == "+INF"
  {
    JavaText.TrimOfUntrimmable("+INF");
  }

  /** `+INF` passes the regular expression and then fails in `Double.parseDouble`. */
  lemma PlusInfRejected()
    ensures ParseDoubleAsWritten("+INF").Failure?
    ensures PmtmDouble("+INF") == Success(PosInf)
  {
    PlusInfTrimmed();
    InfRejected("+INF");
  }

  /** Untrimmable text that is `INF` after an optional sign passes the overhead and
      parameter readers' check and then fails in `Double.parseDouble`. */
  lemma SignedInfRejected(s: string)
    requires JavaText.Trim(s) == s && Sign(s).1 == "INF"
    ensures CheckedParseDouble(s).Failure?
    ensures PmtmDouble(s) == Success(if Sign(s).0 then NegInf else PosInf)
  {
    InfRejected(s);
  }

  /** So an unsigned or negative `INF` is rejected there, while the corrected reader
      gives the infinity. */
  lemma CheckedParseDoubleRejectsInf()
    ensures CheckedParseDouble("INF").Failure? && PmtmDouble("INF") == Success(PosInf)
    ensures CheckedParseDouble("-INF").Failure? && PmtmDouble("-INF") == Success(NegInf)
  {
    JavaText.TrimOfUntrimmable("INF");
    assert Sign("INF") == (false, "INF");
    SignedInfRejected("INF");
    JavaText.TrimOfUntrimmable("-INF");
    assert Sign("-INF") == (true, "INF");
    SignedInfRejected("-INF");
  }

  /** The double of a parameter value or an overhead line: `Double.parseDouble` directly as
      written, the corrected reader otherwise. */
  function PlainDouble(s: string, asWritten: bool): Result<Dbl> {
    if asWritten then CheckedParseDouble(s) else PmtmDouble(s)
  }

  /** The double of a timer line: the private `parseDouble` as written, the corrected reader
      otherwise. */
  function TimerDouble(s: string, asWritten: bool): Result<Dbl> {
    if asWritten then ParseDoubleAsWritten(s) else PmtmDouble(s)
  }

  /** Text that is not an optionally signed `INF` reads the same either way. */
  lemma DoublesAgree(s: string)
    requires Sign(s).1 != "INF"
    ensures PlainDouble(s, true) == PlainDouble(s, false) == TimerDouble(s, true) == PmtmDouble(s)
  {
    if IsFloatText(s) {
      PmtmDoubleFinite(s);
    }
    ParseDoubleAsWrittenAgrees(s);
  }

  /** `parseLong` after `INTEGER_REGEX`: a 64-bit integer, or an error. */
  function LongToken(s: string): (r: Result<int>)
    ensures r.Success? <==> JavaText.ParseLong(s).Some?
    ensures r.Success? ==> JavaText.ParseSigned(s) == Some(r.value)
  {
    if !IsIntegerText(s) then Failure("IOException: invalid long " + s)
    else match JavaText.ParseLong(s)
      case Some(n) => Success(n)
      case None => Failure("NumberFormatException: " + s)
  }

  /** The divisor that undoes the overhead error scaling of old files. */
  const OverheadErrorScale: real := 10000.0

  /** A double divided by the overhead error scale; infinities and NaN stay as they are. */
  function DivideByScale(d: Dbl): (r: Dbl)
    ensures d.Finite? <==> r.Finite?
    ensures d.Finite? ==> r.x * OverheadErrorScale == d.x
    ensures !d.Finite? ==> r == d
  {
    if d.Finite? then Finite(d.x / OverheadErrorScale) else d
  }

  // ---------------------------------------------------------------------------
  // Ranks
  // ---------------------------------------------------------------------------

  /** `getRank`: from version 2.0.0 a rank's display name or number; before it the four
      lower-case aggregate names, else an enum constant name or a number. */
  function GetRank(s: string, v: Version): (r: Result<Rank.Rank>)
    ensures PmtmVersion.IsLaterThanOrEqualTo(v, PmtmVersion.V2_0_0) ==> r == Rank.FromString(s)
    ensures PmtmVersion.IsEarlierThan(v, PmtmVersion.V2_0_0) ==>
              (s == "all" ==> r == Success(Rank.AllRanks))
              && (s == "average of all" ==> r == Success(Rank.RankAvg))
              && (s == "max of all" ==> r == Success(Rank.RankMax))
              && (s == "min of all" ==> r == Success(Rank.RankMin))
              && (s !in {"all", "average of all", "max of all", "min of all"} ==> r == Rank.ValueOf(s))
  {
    if PmtmVersion.IsLaterThanOrEqualTo(v, PmtmVersion.V2_0_0) then Rank.FromString(s)
    else if s == "all" then Success(Rank.AllRanks)
    else if s == "average of all" then Success(Rank.RankAvg)
    else if s == "max of all" then Success(Rank.RankMax)
    else if s == "min of all" then Success(Rank.RankMin)
    else Rank.ValueOf(s)
  }

  /** No special rank is named by digits. */
  lemma SpecialNamesNotNumeric(k: nat)
    requires k < |Rank.Specials|
    ensures JavaText.ParseInt(Rank.Specials[k].display).None?
    ensures JavaText.ParseInt(Rank.Specials[k].enumName).None?
  {
    Rank.SpecialTable();
  }

  /** A numbered rank reads the same in every version. */
  lemma GetRankNumeric(s: string, v: Version)
    requires JavaText.ParseInt(s).Some?
    ensures GetRank(s, v) == Success(Rank.Rank(JavaText.ParseInt(s).value))
  {
    forall k | 0 <= k < |Rank.Specials|
      ensures Rank.Specials[k].display != s && Rank.Specials[k].enumName != s
    {
      SpecialNamesNotNumeric(k);
    }
    if PmtmVersion.IsEarlierThan(v, PmtmVersion.V2_0_0) {
      assert JavaText.ParseSigned(s).Some?;
      assert s != [] && (s[0] == '+' || s[0] == '-' || JavaText.IsDigit(s[0]));
      assert s !in {"all", "average of all", "max of all", "min of all"};
    }
  }

  // ---------------------------------------------------------------------------
  // Data lines
  // ---------------------------------------------------------------------------

  /** An optionally signed `INF` is its own trim, matches the PMTM float syntax and is no
      integer, and `Double.parseDouble` rejects it. */
  lemma SignedInfText(s: string)
    requires Sign(s).1 == "INF"
    ensures JavaText.Trim(s) == s && IsPmtmFloatText(s) && !IsIntegerText(s)
    ensures CheckedParseDouble(s).Failure?
  {
    assert s == "INF" || s == "+INF" || s == "-INF" by {
      if s != "INF" {
        assert s == [s[0]] + s[1..];
      }
    }
    assert !JavaText.IsDigit('I');
    assert !IsIntegerText(s) by {
      assert s[|s| - 3] == 'I';
    }
    JavaText.TrimOfUntrimmable(s);
    InfRejected(s);
  }

  /** The payload of a parameter: an `Integer` when the text matches `INTEGER_REGEX`, a
      `Double` when it matches `FLOAT_REGEX`, else the text itself. As written the double is
      read by `Double.parseDouble`, which rejects an optionally signed `INF`. */
  function ParameterValue(s: string, asWritten: bool): (r: Result<Value.Datum>)
    ensures IsIntegerText(s) ==> (r.Success? <==> JavaText.ParseInt(s).Some?)
    ensures r.Success? && r.value.IntegerVal? <==> JavaText.ParseInt(s).Some?
    ensures r.Success? && r.value.IntegerVal? ==> r.value.n == JavaText.ParseInt(s).value
    ensures !IsIntegerText(s) && IsPmtmFloatText(s) ==> (r.Success? <==> !asWritten || Sign(s).1 != "INF")
    ensures r.Success? && r.value.DoubleVal? <==> !IsIntegerText(s) && IsPmtmFloatText(s) && r.Success?
    ensures r.Success? && r.value.DoubleVal? ==> PlainDouble(s, asWritten) == Success(r.value.d)
    ensures !asWritten && r.Success? && r.value.DoubleVal? ==> PmtmDouble(s) == Success(r.value.d)
    ensures !IsIntegerText(s) && !IsPmtmFloatText(s) ==> r == Success(Value.StringVal(s))
  {
    if IsIntegerText(s) then
      match JavaText.ParseInt(s)
      case Some(n) => Success(Value.IntegerVal(n))
      case None => Failure("NumberFormatException: " + s)
    else if IsPmtmFloatText(s) then
      if Sign(s).1 == "INF" then
        SignedInfText(s);
        var d :- PlainDouble(s, asWritten);
        Success(Value.DoubleVal(d))
      else
        PmtmDoubleFinite(s);
        Success(Value.DoubleVal(PlainDouble(s, asWritten).value))
    else Success(Value.StringVal(s))
  }

  /** A parameter value of `INF` or `-INF` passes `FLOAT_REGEX` and then fails in
      `Double.parseDouble`; the corrected reader gives the infinity. */
  lemma ParameterInfRejected()
    ensures ParameterValue("INF", true).Failure? && ParameterValue("INF", false) == Success(Value.DoubleVal(PosInf))
    ensures ParameterValue("-INF", true).Failure? && ParameterValue("-INF", false) == Success(Value.DoubleVal(NegInf))
  {
    assert Sign("INF") == (false, "INF");
    SignedInfText("INF");
    assert Sign("-INF") == (true, "INF");
    SignedInfText("-INF");
  }

  /** Every `int` written in decimal reads back as that `Integer`. */
  lemma ParameterValueInt(n: int, asWritten: bool)
    requires JavaText.IsInt32(n)
    ensures ParameterValue(JavaText.IntToString(n), asWritten) == Success(Value.IntegerVal(n))
  {
    JavaText.ParseIntToString(n);
  }

  /** `getParameter`: exactly seven tokens; the rank is token 2, the name token 4 and the
      value token 6. */
  function GetParameter(line: string, v: Version, asWritten: bool): (r: Result<Value.Value>)
    ensures r.Success? ==> var t := JavaText.SplitComma(line);
              |t| == 7 && r.value.name == t[4]
              && GetRank(t[2], v) == Success(r.value.rank)
              && ParameterValue(t[6], asWritten).Success? && r.value.value == Some(ParameterValue(t[6], asWritten).value)
              && r.value.error.None? && r.value.count.None? && r.value.pauseCount.None?
    ensures r.Failure? ==> var t := JavaText.SplitComma(line);
              |t| != 7 || GetRank(t[2], v).Failure? || ParameterValue(t[6], asWritten).Failure?
  {
    var t := JavaText.SplitComma(line);
    if |t| != 7 then Failure("IOException: invalid parameter line " + line)
    else
      var rank :- GetRank(t[2], v);
      var d :- ParameterValue(t[6], asWritten);
      Success(Value.Simple(t[4], rank, Some(d)))
  }

  /** The number of tokens a timer line has: 14 from version 0.2.3, 12 before. */
  function TimerTokens(v: Version): nat {
    if PmtmVersion.IsLaterThanOrEqualTo(v, PmtmVersion.V0_2_3) then 14 else 12
  }

  /** `getResult`: rank token 2, name 4, value 6, error 8, count 11 and, from 0.2.3,
      pause count 13; earlier files have no pause count and get 0. */
  function GetResult(line: string, v: Version, asWritten: bool): (r: Result<Value.Value>)
    ensures |JavaText.SplitComma(line)| != TimerTokens(v) ==> r.Failure?
    ensures |JavaText.SplitComma(line)| == TimerTokens(v) ==> r == TimerValue(JavaText.SplitComma(line), v, asWritten)
  {
    var t := JavaText.SplitComma(line);
    if |t| != TimerTokens(v) then Failure("IOException: invalid result line " + line)
    else TimerValue(t, v, asWritten)
  }

  /** The timer a line of the right length describes; every field must read for it to. */
  function TimerValue(t: seq<string>, v: Version, asWritten: bool): (r: Result<Value.Value>)
    requires |t| == TimerTokens(v)
    ensures r.Success? <==> GetRank(t[2], v).Success? && TimerDouble(t[6], asWritten).Success?
                            && TimerDouble(t[8], asWritten).Success? && LongToken(t[11]).Success?
                            && (PmtmVersion.IsLaterThanOrEqualTo(v, PmtmVersion.V0_2_3) ==> LongToken(t[13]).Success?)
    ensures r.Success? ==> r.value.name == t[4] && GetRank(t[2], v) == Success(r.value.rank)
    ensures r.Success? ==> r.value.value == Some(Value.DoubleVal(TimerDouble(t[6], asWritten).value))
    ensures r.Success? ==> r.value.error == Some(Value.DoubleVal(TimerDouble(t[8], asWritten).value))
    ensures r.Success? ==> r.value.count == Some(LongToken(t[11]).value)
    ensures r.Success? ==> r.value.errorType == Some(Value.PmtmStandard)
    ensures r.Success? && PmtmVersion.IsEarlierThan(v, PmtmVersion.V0_2_3) ==> r.value.pauseCount == Some(0)
    ensures r.Success? && PmtmVersion.IsLaterThanOrEqualTo(v, PmtmVersion.V0_2_3) ==>
              r.value.pauseCount == Some(LongToken(t[13]).value)
  {
    var rank :- GetRank(t[2], v);
    var value :- TimerDouble(t[6], asWritten);
    var error :- TimerDouble(t[8], asWritten);
    var count :- LongToken(t[11]);
    var pause :- if PmtmVersion.IsEarlierThan(v, PmtmVersion.V0_2_3) then Success(0) else LongToken(t[13]);
    Success(Value.Value(t[4], Some(Value.DoubleVal(value)), Some(Value.DoubleVal(error)),
                        Some(Value.PmtmStandard), rank, Some(count), Some(pause)))
  }

  /** `getOverhead`: exactly ten tokens; the name is the prefix and token 4, the rank is
      ALL_RANKS, the count 10000 and the pause count 0. Before version 0.2.6 the error was
      written 10000 times too large and is divided back. */
  function GetOverhead(line: string, v: Version, asWritten: bool): (r: Result<Value.Value>)
    ensures r.Success? <==> var t := JavaText.SplitComma(line);
              |t| == 10 && PlainDouble(t[6], asWritten).Success? && PlainDouble(t[8], asWritten).Success?
    ensures r.Success? ==> var t := JavaText.SplitComma(line);
              r.value.name == OverheadPrefix + t[4]
              && r.value.rank == Rank.AllRanks
              && r.value.count == Some(OverheadCount) && r.value.pauseCount == Some(0)
              && r.value.value == Some(Value.DoubleVal(PlainDouble(t[6], asWritten).value))
              && r.value.error == Some(Value.DoubleVal(
                   if PmtmVersion.IsEarlierThan(v, PmtmVersion.V0_2_6)
                   then DivideByScale(PlainDouble(t[8], asWritten).value) else PlainDouble(t[8], asWritten).value))
  {
    var t := JavaText.SplitComma(line);
    if |t| != 10 then Failure("IOException: invalid overhead line " + line)
    else OverheadValue(t, v, asWritten)
  }

  /** The overhead a line of ten tokens describes. */
  function OverheadValue(t: seq<string>, v: Version, asWritten: bool): Result<Value.Value>
    requires |t| == 10
  {
    OverheadOf(t[4], PlainDouble(t[6], asWritten), PlainDouble(t[8], asWritten), v)
  }

  /** The overhead named `name` from its value and error as read. */
  function OverheadOf(name: string, value: Result<Dbl>, error: Result<Dbl>, v: Version): Result<Value.Value> {
    var value :- value;
    var error :- error;
    var err := if PmtmVersion.IsEarlierThan(v, PmtmVersion.V0_2_6) then DivideByScale(error) else error;
    Success(Value.Value(OverheadPrefix + name, Some(Value.DoubleVal(value)), Some(Value.DoubleVal(err)),
                        Some(Value.PmtmStandard), Rank.AllRanks, Some(OverheadCount), Some(0)))
  }

  /** No token is an optionally signed `INF`. */
  predicate NoInf(t: seq<string>) {
    forall k :: 0 <= k < |t| ==> Sign(t[k]).1 != "INF"
  }

  /** Away from infinities a parameter value does not depend on the double reader. */
  lemma ParameterValueAgrees(s: string)
    requires Sign(s).1 != "INF"
    ensures ParameterValue(s, true) == ParameterValue(s, false)
  {
    DoublesAgree(s);
  }

  /** Away from infinities the parameter reader does not depend on the double reader. */
  lemma GetParameterAgrees(line: string, v: Version)
    requires NoInf(JavaText.SplitComma(line))
    ensures GetParameter(line, v, true) == GetParameter(line, v, false)
  {
    var t := JavaText.SplitComma(line);
    if |t| == 7 {
      ParameterValueAgrees(t[6]);
    }
  }

  /** Away from infinities the timer reader does not depend on the double reader. */
  lemma GetResultAgrees(line: string, v: Version)
    requires NoInf(JavaText.SplitComma(line))
    ensures GetResult(line, v, true) == GetResult(line, v, false)
  {
    var t := JavaText.SplitComma(line);
    if |t| == TimerTokens(v) {
      DoublesAgree(t[6]);
      DoublesAgree(t[8]);
    }
  }

  /** Away from infinities the overhead reader does not depend on the double reader. */
  lemma GetOverheadAgrees(line: string, v: Version)
    requires NoInf(JavaText.SplitComma(line))
    ensures GetOverhead(line, v, true) == GetOverhead(line, v, false)
  {
    var t := JavaText.SplitComma(line);
    if |t| == 10 {
      assert PlainDouble(t[6], true) == PlainDouble(t[6], false) by { DoublesAgree(t[6]); }
      assert PlainDouble(t[8], true) == PlainDouble(t[8], false) by { DoublesAgree(t[8]); }
    }
  }

  // ---------------------------------------------------------------------------
  // Versions
  // ---------------------------------------------------------------------------

  /** `getVersion`: exactly three tokens, the first "PMTM Version"; the third, trimmed,
      names the version in the declared table as written, in the corrected one (0.3.0 spelt
      with a digit zero) otherwise. */
  function GetVersion(line: string, asWritten: bool): (r: Result<Version>)
    ensures r.Success? ==> var t := JavaText.SplitComma(line);
              |t| == 3 && t[0] == VersionTag
              && PmtmVersion.GetFromStringIn(JavaText.Trim(t[2]), asWritten) == Success(r.value)
    ensures r.Failure? ==> var t := JavaText.SplitComma(line);
              |t| != 3 || t[0] != VersionTag || PmtmVersion.GetFromStringIn(JavaText.Trim(t[2]), asWritten).Failure?
  {
    var t := JavaText.SplitComma(line);
    if |t| != 3 || t[0] != VersionTag then Failure("IOException: invalid version line " + line)
    else match PmtmVersion.GetFromStringIn(JavaText.Trim(t[2]), asWritten)
      case Success(v) => Success(v)
      case Failure(_) => Failure("IOException: unknown PMTM version " + t[2])
  }

  /** No token, trimmed, names version 0.3.0 in either spelling. */
  predicate NoZeroThreeZero(t: seq<string>) {
    forall k :: 0 <= k < |t| ==>
      !PmtmVersion.NamesIn(PmtmVersion.V0_3_0, JavaText.Trim(t[k]), true)
      && !PmtmVersion.NamesIn(PmtmVersion.V0_3_0, JavaText.Trim(t[k]), false)
  }

  /** The two tables read the same version line unless it names 0.3.0 in either spelling. */
  lemma GetVersionAgrees(line: string)
    requires NoZeroThreeZero(JavaText.SplitComma(line))
    ensures GetVersion(line, true) == GetVersion(line, false)
  {
    var t := JavaText.SplitComma(line);
    if |t| == 3 && t[0] == VersionTag {
      PmtmVersion.TablesAgreeOn(JavaText.Trim(t[2]));
    }
  }

  /** `getVersionPart`: null is 0; otherwise the string is split on `.` and `-` and part
      `idx`, trimmed, is read as an `Integer`, a missing part being 0. A part that is not
      a number is an error. */
  function VersionPart(s: Option<string>, idx: nat): (r: Result<int>)
    ensures s.None? ==> r == Success(0)
    ensures s.Some? && idx >= |JavaText.Split(s.value, {'.', '-'})| ==> r == Success(0)
    ensures s.Some? && idx < |JavaText.Split(s.value, {'.', '-'})| ==>
              (r.Success? <==> JavaText.ParseInt(JavaText.Trim(JavaText.Split(s.value, {'.', '-'})[idx])).Some?)
  {
    if s.None? then Success(0)
    else
      var parts := JavaText.Split(s.value, {'.', '-'});
      if idx < |parts| then
        match JavaText.ParseInt(JavaText.Trim(parts[idx]))
        case Some(n) => Success(n)
        case None => Failure("IOException: illegal version string " + s.value)
      else Success(0)
  }

  /** Decimal digits that fit an `int`. */
  predicate IsIntDigits(d: string) {
    d != [] && JavaText.AllDigits(d) && JavaText.DigitsValue(d) <= JavaText.IntMax
  }

  lemma IntDigitsParse(d: string)
    requires IsIntDigits(d)
    ensures JavaText.Trim(d) == d && JavaText.ParseInt(d) == Some(JavaText.DigitsValue(d))
    ensures JavaText.NoneIn(d, {'.', '-'})
  {
    assert JavaText.IsDigit(d[0]) && JavaText.IsDigit(d[|d| - 1]);
    JavaText.TrimOfUntrimmable(d);
  }

  /** A dotted version of plain numbers yields each number at its position and 0 past
      the end. */
  lemma VersionPartOfJoin(parts: seq<string>, idx: nat)
    requires parts != [] && forall k :: 0 <= k < |parts| ==> IsIntDigits(parts[k])
    ensures idx < |parts| ==>
              IsIntDigits(parts[idx]) && VersionPart(Some(JavaText.Join(parts, ".")), idx) == Success(JavaText.DigitsValue(parts[idx]))
    ensures idx >= |parts| ==> VersionPart(Some(JavaText.Join(parts, ".")), idx) == Success(0)
  {
    forall k | 0 <= k < |parts| ensures JavaText.NoneIn(parts[k], {'.', '-'}) && parts[k] != [] {
      IntDigitsParse(parts[k]);
    }
    JavaText.SplitOfJoin(parts, '.', {'.', '-'});
    if idx < |parts| {
      IntDigitsParse(parts[idx]);
    }
  }

  // ---------------------------------------------------------------------------
  // Clock speeds
  // ---------------------------------------------------------------------------

  /** The length of the run of digits at the start of `s`. */
  function LeadingDigits(s: string): (n: nat)
    ensures n <= |s| && JavaText.AllDigits(s[..n]) && (n < |s| ==> !JavaText.IsDigit(s[n]))
  {
    if s == [] || !JavaText.IsDigit(s[0]) then 0
    else
      var m := LeadingDigits(s[1..]);
      assert s[..m + 1] == [s[0]] + s[1..][..m];
      m + 1
  }

  lemma {:induction false} LeadingDigitsConcat(d: string, rest: string)
    requires JavaText.AllDigits(d) && (rest != [] ==> !JavaText.IsDigit(rest[0]))
    ensures LeadingDigits(d + rest) == |d|
  {
    if d != [] {
      assert (d + rest)[1..] == d[1..] + rest;
      LeadingDigitsConcat(d[1..], rest);
    }
  }

  /** The groups of `([0-9]+)(\.[0-9]+)?(GHz|MHz)?`: the whole digits, the fraction digits
      if there is a point, and the unit ("" when absent). */
  datatype ClockParts = ClockParts(whole: string, frac: Option<string>, unit: string)

  predicate IsUnit(u: string) { u == "" || u == "GHz" || u == "MHz" }

  predicate WellFormedClock(p: ClockParts) {
    p.whole != [] && JavaText.AllDigits(p.whole)
    && (p.frac.Some? ==> p.frac.value != [] && JavaText.AllDigits(p.frac.value))
    && IsUnit(p.unit)
  }

  function RenderClock(p: ClockParts): string {
    p.whole + (if p.frac.Some? then "." + p.frac.value else "") + p.unit
  }

  /** A full match of the clock-speed pattern. */
  function MatchClock(s: string): (r: Option<ClockParts>)
    ensures r.Some? ==> WellFormedClock(r.value) && RenderClock(r.value) == s
  {
    var n := LeadingDigits(s);
    if n == 0 then None
    else
      var rest := s[n..];
      if rest != [] && rest[0] == '.' then
        var m := LeadingDigits(rest[1..]);
        var tail := rest[1..][m..];
        if m > 0 && IsUnit(tail) then
          var p := ClockParts(s[..n], Some(rest[1..][..m]), tail);
          DotSplit(s, n, m);
          assert RenderClock(p) == s[..n] + ("." + rest[1..][..m]) + tail;
          Some(p)
        else None
      else if IsUnit(rest) then
        assert s == s[..n] + rest;
        Some(ClockParts(s[..n], None, rest))
      else None
  }

  /** A text cut around the dot at `n` and `m` characters after it. */
  lemma DotSplit(s: string, n: nat, m: nat)
    requires n < |s| && s[n] == '.' && m <= |s| - n - 1
    ensures s == s[..n] + ("." + s[n..][1..][..m]) + s[n..][1..][m..]
  {
    var rest := s[n..];
    assert rest == "." + rest[1..][..m] + rest[1..][m..];
    assert s == s[..n] + rest;
  }

  /** The pattern matches its own renderings, and only in one way. */
  lemma MatchClockRender(p: ClockParts)
    requires WellFormedClock(p)
    ensures MatchClock(RenderClock(p)) == Some(p)
  {
    var s := RenderClock(p);
    var rest := (if p.frac.Some? then "." + p.frac.value else "") + p.unit;
    assert s == p.whole + rest;
    assert rest != [] ==> !JavaText.IsDigit(rest[0]);
    LeadingDigitsConcat(p.whole, rest);
    assert s[|p.whole|..] == rest && s[..|p.whole|] == p.whole;
    if p.frac.Some? {
      var f := p.frac.value;
      assert rest[1..] == f + p.unit;
      assert p.unit != [] ==> !JavaText.IsDigit(p.unit[0]);
      LeadingDigitsConcat(f, p.unit);
      assert rest[1..][|f|..] == p.unit && rest[1..][..|f|] == f;
    }
  }

  /** A GHz reading converted to MHz: the exact value times 1000, truncated as the cast
      to `int` does, which saturates at the largest `int`. */
  function GhzToMhz(whole: string, frac: string): (r: int)
    requires JavaText.AllDigits(whole) && JavaText.AllDigits(frac)
    ensures 0 <= r <= JavaText.IntMax
  {
    var x := LiteralValue(Literal(whole, true, frac, None)) * 1000.0;
    if x.Floor > JavaText.IntMax then JavaText.IntMax else x.Floor
  }

  /** The clock-speed text as written: without a fraction the whole number is taken as it
      is, whatever the unit, so "3GHz" reads as 3. */
  function ClockTextAsWritten(s: string): (r: Result<Option<int>>)
    ensures MatchClock(s).None? ==> r == Success(None)
  {
    match MatchClock(s)
    case None => Success(None)
    case Some(p) =>
      if p.frac.None? || p.unit != "GHz" then
        match JavaText.ParseInt(p.whole)
        case Some(n) => Success(Some(n))
        case None => Failure("NumberFormatException: " + p.whole)
      else Success(Some(GhzToMhz(p.whole, p.frac.value)))
  }

  /** The clock-speed text as intended: a GHz reading is always scaled to MHz; a plain or
      MHz reading is its whole part. */
  function ClockText(s: string): (r: Result<Option<int>>)
    ensures MatchClock(s).None? ==> r == Success(None)
    ensures MatchClock(s).Some? && MatchClock(s).value.unit == "GHz" ==>
              r == Success(Some(GhzToMhz(MatchClock(s).value.whole,
                                         if MatchClock(s).value.frac.Some? then MatchClock(s).value.frac.value else "")))
    ensures MatchClock(s).Some? && MatchClock(s).value.unit != "GHz" ==>
              (r.Success? <==> JavaText.ParseInt(MatchClock(s).value.whole).Some?)
              && (r.Success? ==> r.value == JavaText.ParseInt(MatchClock(s).value.whole))
  {
    match MatchClock(s)
    case None => Success(None)
    case Some(p) =>
      if p.unit == "GHz" then
        Success(Some(GhzToMhz(p.whole, if p.frac.Some? then p.frac.value else "")))
      else
        match JavaText.ParseInt(p.whole)
        case Some(n) => Success(Some(n))
        case None => Failure("NumberFormatException: " + p.whole)
  }

  /** The two readings agree except on whole numbers of GHz. */
  lemma ClockTextAgrees(s: string)
    requires !(MatchClock(s).Some? && MatchClock(s).value.unit == "GHz" && MatchClock(s).value.frac.None?)
    ensures ClockTextAsWritten(s) == ClockText(s)
  {
  }

  /** "3GHz", say, reads as 3 where 3000 is meant. */
  lemma WholeGhzUnscaled(d: string)
    requires IsIntDigits(d) && 0 < JavaText.DigitsValue(d) && JavaText.DigitsValue(d) * 1000 <= JavaText.IntMax
    ensures ClockTextAsWritten(d + "GHz") == Success(Some(JavaText.DigitsValue(d)))
    ensures ClockText(d + "GHz").Success? && ClockText(d + "GHz").value.value != JavaText.DigitsValue(d)
  {
    var p := ClockParts(d, None, "GHz");
    assert RenderClock(p) == d + "GHz";
    MatchClockRender(p);
    IntDigitsParse(d);
    WholeGhzValue(d);
  }

  lemma WholeGhzValue(d: string)
    requires IsIntDigits(d) && 0 < JavaText.DigitsValue(d) && JavaText.DigitsValue(d) * 1000 <= JavaText.IntMax
    ensures GhzToMhz(d, "") == JavaText.DigitsValue(d) * 1000
  {
    var l := Literal(d, true, "", None);
    assert d + "" == d;
    assert LiteralValue(l) == JavaText.DigitsValue(d) as real by {
      assert Scale(JavaText.DigitsValue(d) as real, 0) == JavaText.DigitsValue(d) as real;
    }
    var n := JavaText.DigitsValue(d);
    assert (n as real * 1000.0).Floor == n * 1000;
  }

  /** The decimal GHz reading the tests use: "2.8GHz" is 2800 MHz. */
  lemma DecimalGhzExample()
    ensures GhzToMhz("2", "8") == 2800
  {
    assert "2" + "8" == "28";
    assert JavaText.DigitsValue("28") == 28 by {
      assert "28"[..1] == "2" && "2"[..0] == "";
    }
    assert Scale(28.0, -1) == 2.8 by {
      assert Scale(28.0, 0) == 28.0;
    }
  }

  /** `getClockSpeedFromTokens` as written: the bound test is `index > length`, so a line
      with exactly `index` tokens reads past the end of the array. */
  function ClockSpeedAsWritten(tokens: seq<string>, index: nat): (r: Result<Option<int>>)
    ensures index > |tokens| ==> r == Success(None)
    ensures index == |tokens| ==> r.Failure?
  {
    if index > |tokens| then Success(None)
    else if index == |tokens| then Failure("ArrayIndexOutOfBoundsException: " + JavaText.IntToString(index))
    else ClockTextAsWritten(tokens[index])
  }

  /** `getClockSpeedFromTokens` as intended: a missing token is a null clock speed. */
  function ClockSpeed(tokens: seq<string>, index: nat): (r: Result<Option<int>>)
    ensures index >= |tokens| ==> r == Success(None)
    ensures index < |tokens| ==> r == ClockText(tokens[index])
  {
    if index >= |tokens| then Success(None) else ClockText(tokens[index])
  }

  /** The clock speed of a processor line as written or as intended. */
  function ClockSpeedIn(tokens: seq<string>, index: nat, asWritten: bool): Result<Option<int>> {
    if asWritten then ClockSpeedAsWritten(tokens, index) else ClockSpeed(tokens, index)
  }

  /** A clock-speed text that is a whole number of GHz. */
  predicate IsWholeGhz(s: string) {
    MatchClock(s).Some? && MatchClock(s).value.unit == "GHz" && MatchClock(s).value.frac.None?
  }

  /** The tokens are not exactly `index` long, and the clock-speed token, if there is one, is
      not a whole number of GHz. */
  predicate ClockOrdinary(tokens: seq<string>, index: nat) {
    index != |tokens| && (index < |tokens| ==> !IsWholeGhz(tokens[index]))
  }

  /** Away from those two cases the clock-speed readers agree. */
  lemma ClockSpeedAgrees(tokens: seq<string>, index: nat)
    requires ClockOrdinary(tokens, index)
    ensures ClockSpeedIn(tokens, index, true) == ClockSpeedIn(tokens, index, false)
  {
    if index < |tokens| {
      ClockTextAgrees(tokens[index]);
    }
  }

  /** A processor line of five tokens fails as written and has no clock speed as intended. */
  lemma ClockSpeedAtLength(tokens: seq<string>)
    requires |tokens| == 5
    ensures ClockSpeedAsWritten(tokens, 5).Failure? && ClockSpeed(tokens, 5) == Success(None)
  {
  }
}
