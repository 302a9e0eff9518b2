/** The pure helpers of `pmtm_sql`: how a Python value becomes SQL text (`_sql_tostring`),
    how a version string is decomposed (`_parse_version`), how a rank token becomes a rank
    and thread number (`_rank_to_int`), and how a parameter's value is typed. */
module PmtmSqlValues {
  import opened Wrappers
  import JavaText
  import JavaNumber
  import PyText
  import Rank

  /** The Python values the importer hands to `_sql_tostring`, by type. A float is its exact
      value; a `datetime` is its `str()` form; `SOther` is a value of any other type, named
      by its type. */
  datatype SqlValue =
    | SStr(s: string)
    | SInt(i: int)
    | SFloat(f: real)
    | SBool(b: bool)
    | SNone
    | SDateTime(text: string)
    | SOther(typeName: string)

  // ---------------------------------------------------------------------------
  // String literals
  // ---------------------------------------------------------------------------

  /** The characters the MySQL client library escapes in a string literal. */
  const Escaped: set<char> := {0 as char, '\n', '\r', '\\', '\'', '"', 0x1A as char}

  /** One character of `string_literal`'s body: a backslash and a code letter for the
      escaped characters, the character itself otherwise. */
  function EscapeChar(c: char): (r: string)
    ensures c !in Escaped ==> r == [c]
    ensures c in Escaped ==> |r| == 2 && r[0] == '\\'
  {
    if c == 0 as char then "\\0"
    else if c == '\n' then "\\n"
    else if c == '\r' then "\\r"
    else if c == 0x1A as char then "\\Z"
    else if c in Escaped then ['\\', c]
    else [c]
  }

  /** The body of `string_literal(s)`: every character escaped in turn. */
  function Escape(s: string): (r: string)
    ensures |r| >= |s|
  {
    if s == [] then [] else EscapeChar(s[0]) + Escape(s[1..])
  }

  /** `string_literal(s)`: the escaped text between single quotes. */
  function StringLiteral(s: string): (r: string)
    ensures |r| >= 2 && r[0] == '\'' && r[|r| - 1] == '\''
  {
    "'" + Escape(s) + "'"
  }

  /** What the server reads for a backslash followed by `c` inside a quoted string. */
  function UnescapeChar(c: char): char {
    if c == '0' then 0 as char
    else if c == 'n' then '\n'
    else if c == 'r' then '\r'
    else if c == 't' then '\t'
    else if c == 'b' then 8 as char
    else if c == 'Z' then 0x1A as char
    else c
  }

  /** The server's reading of a quoted string after its opening quote: backslash escapes
      (`\%` and `\_` keep their backslash), a doubled quote for a quote, and the closing
      quote. The result is the value and the text after the closing quote. */
  function ReadBody(t: string): (r: Option<(string, string)>)
    ensures r.Some? ==> |r.value.1| < |t|
    decreases |t|
  {
    if t == [] then None
    else if t[0] == '\'' then
      if |t| >= 2 && t[1] == '\'' then
        match ReadBody(t[2..])
        case None => None
        case Some(p) => Some(("'" + p.0, p.1))
      else Some(([], t[1..]))
    else if t[0] == '\\' then
      if |t| < 2 then None
      else
        var piece := if t[1] in {'%', '_'} then ['\\', t[1]] else [UnescapeChar(t[1])];
        match ReadBody(t[2..])
        case None => None
        case Some(p) => Some((piece + p.0, p.1))
    else
      match ReadBody(t[1..])
      case None => None
      case Some(p) => Some(([t[0]] + p.0, p.1))
  }

  /** A quoted string at the start of `t`: its value and the text after it. */
  function ReadLiteral(t: string): (r: Option<(string, string)>)
    ensures r.Some? ==> t != [] && t[0] == '\''
  {
    if t != [] && t[0] == '\'' then ReadBody(t[1..]) else None
  }

  /** The server reads an escaped body back as the original text and stops exactly at the
      closing quote, whatever follows it (unless that is a second quote). */
  lemma {:induction false} ReadEscaped(s: string, rest: string)
    requires rest == [] || rest[0] != '\''
    ensures ReadBody(Escape(s) + "'" + rest) == Some((s, rest))
  {
    if s == [] {
      assert Escape(s) + "'" + rest == "'" + rest;
    } else {
      ReadEscaped(s[1..], rest);
      assert Escape(s) + "'" + rest == EscapeChar(s[0]) + (Escape(s[1..]) + "'" + rest);
      ReadEscapedChar(s[0], Escape(s[1..]) + "'" + rest, s[1..], rest);
      assert [s[0]] + s[1..] == s;
    }
  }

  /** One escaped character is read back as itself, ahead of what the rest reads as. */
  lemma {:induction false} ReadEscapedChar(c: char, tail: string, value: string, rest: string)
    requires ReadBody(tail) == Some((value, rest))
    ensures ReadBody(EscapeChar(c) + tail) == Some(([c] + value, rest))
  {
    var t := EscapeChar(c) + tail;
    if c in Escaped {
      assert t[0] == '\\' && t[2..] == tail;
    } else {
      assert t[0] == c && t[1..] == tail;
    }
  }

  /** A string literal cannot be broken out of: it reads back as its text, and the rest of
      the statement starts right after it. */
  lemma {:induction false} LiteralRoundTrip(s: string, rest: string)
    requires rest == [] || rest[0] != '\''
    ensures ReadLiteral(StringLiteral(s) + rest) == Some((s, rest))
  {
    ReadEscaped(s, rest);
    assert (StringLiteral(s) + rest)[1..] == Escape(s) + "'" + rest;
  }

  // ---------------------------------------------------------------------------
  // _sql_tostring
  // ---------------------------------------------------------------------------

  /** `_sql_tostring`: strings and datetimes become string literals, integers their
      decimal, floats `str(f)` (given as `showFloat`), booleans `0` or `1`, `None` the
      keyword `NULL`; a value of any other type raises. */
  function ToSql(v: SqlValue, showFloat: real -> string): (r: Result<string>)
    ensures r.Failure? <==> v.SOther?
  {
    match v
    case SStr(s) => Success(StringLiteral(s))
    case SInt(i) => Success(PyText.IntStr(i))
    case SFloat(f) => Success(showFloat(f))
    case SBool(b) => Success(if b then "1" else "0")
    case SNone => Success("NULL")
    case SDateTime(t) => Success(StringLiteral(t))
    case SOther(n) => Failure("Unknown object type " + n)
  }

  /** The value a column holds once the server has read a literal: booleans are integers
      and a datetime is its text. A float keeps its exact value here; the server really
      holds its own reading of the `str(f)` text, which this model does not compute. */
  function Stored(v: SqlValue): (r: SqlValue)
    ensures !r.SBool? && !r.SDateTime?
  {
    match v
    case SBool(b) => SInt(if b then 1 else 0)
    case SDateTime(t) => SStr(t)
    case _ => v
  }

  /** The server's reading of one literal: `NULL`, a quoted string, or a signed decimal. */
  function ReadSql(t: string): (r: Option<SqlValue>)
  {
    if t == "NULL" then Some(SNone)
    else if t != [] && t[0] == '\'' then
      match ReadLiteral(t)
      case Some(p) => if p.1 == [] then Some(SStr(p.0)) else None
      case None => None
    else
      match JavaText.ParseSigned(t)
      case Some(n) => Some(SInt(n))
      case None => None
  }

  /** Every value other than a float (whose text is `str`'s to choose) is written so that
      the server reads back exactly the stored form of the value. */
  lemma {:induction false} ReadToSql(v: SqlValue, showFloat: real -> string)
    requires !v.SFloat? && !v.SOther?
    ensures ReadSql(ToSql(v, showFloat).value) == Some(Stored(v))
  {
    match v
    case SStr(s) =>
      LiteralRoundTrip(s, []);
      assert StringLiteral(s) + [] == StringLiteral(s);
    case SDateTime(s) =>
      LiteralRoundTrip(s, []);
      assert StringLiteral(s) + [] == StringLiteral(s);
    case SInt(i) =>
      ReadIntStr(i);
    case SBool(b) =>
      assert JavaText.DigitsValue("1") == 1;
    case SNone =>
  }

  /** The server reads the decimal of an integer back as the integer. */
  lemma {:induction false} ReadIntStr(i: int)
    ensures ReadSql(PyText.IntStr(i)) == Some(SInt(i))
  {
    var t := PyText.IntStr(i);
    PyText.IntStrSigns(i);
    assert t != "NULL" by { assert t[0] == '-' || JavaText.IsDigit(t[0]); }
    if i < 0 {
      JavaText.NatToStringValue(-i);
      assert t[1..] == JavaText.NatToString(-i);
    } else {
      JavaText.NatToStringValue(i);
    }
  }

  // ---------------------------------------------------------------------------
  // _parse_version
  // ---------------------------------------------------------------------------

  /** The four parts `_parse_version` returns. The code is a string, except in the fallback
      where it is the integer 0. */
  datatype VersionParts = VersionParts(major: int, minor: int, build: int, code: SqlValue)

  /** The length of the run of decimal digits at the start of `s` (what a greedy `\d+`
      or `\d*` takes). */
  function DigitRun(s: string): (n: nat)
    ensures n <= |s| && JavaText.AllDigits(s[..n])
    ensures n < |s| ==> !JavaText.IsDigit(s[n])
  {
    if s != [] && JavaText.IsDigit(s[0]) then
      var n := 1 + DigitRun(s[1..]);
      assert s[..n] == [s[0]] + s[1..][..n - 1];
      n
    else 0
  }

  /** A digit run followed by a non-digit is taken whole. */
  lemma {:induction false} DigitRunOf(d: string, rest: string)
    requires JavaText.AllDigits(d)
    requires rest == [] || !JavaText.IsDigit(rest[0])
    ensures DigitRun(d + rest) == |d|
  {
    if d != [] {
      assert (d + rest)[1..] == d[1..] + rest;
      DigitRunOf(d[1..], rest);
    }
  }

  /** The position of the first newline, or the length: what `.*` takes. */
  function LineEnd(s: string): (n: nat)
    ensures n <= |s| && '\n' !in s[..n]
    ensures n < |s| ==> s[n] == '\n'
  {
    if s == [] || s[0] == '\n' then 0
    else
      var n := 1 + LineEnd(s[1..]);
      assert s[..n] == [s[0]] + s[1..][..n - 1];
      n
  }

  /** `re.match(r'[vV]?(\d+)\.(\d+)(\.(\d+))?(.*)', s)`, which is anchored at the start
      only: the parts, with build 0 when the third group is absent and the code the rest of
      the first line, stripped. */
  function MatchDotted(s: string): (r: Option<VersionParts>)
    ensures r.Some? ==> r.value.major >= 0 && r.value.minor >= 0 && r.value.build >= 0
                        && r.value.code.SStr?
  {
    MatchMajor(if s != [] && s[0] in {'v', 'V'} then s[1..] else s)
  }

  /** `(\d+)\.` and what follows it. */
  function MatchMajor(t: string): (r: Option<VersionParts>)
    ensures r.Some? ==> r.value.major >= 0 && r.value.minor >= 0 && r.value.build >= 0
                        && r.value.code.SStr?
  {
    var n := DigitRun(t);
    if n == 0 || n == |t| || t[n] != '.' then None
    else
      match MatchMinor(t[n + 1..])
      case None => None
      case Some(p) => Some(VersionParts(JavaText.DigitsValue(t[..n]), p.0, p.1, p.2))
  }

  /** `(\d+)` and what follows it: the minor number, the build and the code. */
  function MatchMinor(u: string): (r: Option<(nat, nat, SqlValue)>)
    ensures r.Some? ==> r.value.2.SStr?
  {
    var n := DigitRun(u);
    if n == 0 then None
    else
      var bc := BuildAndCode(u[n..]);
      Some((JavaText.DigitsValue(u[..n]), bc.0, bc.1))
  }

  /** `(\.(\d+))?(.*)`: a point and digits give the build, else the build is 0; the code is
      the rest of the line, stripped. */
  function BuildAndCode(w: string): (r: (nat, SqlValue))
    ensures r.1.SStr?
  {
    var v := if w != [] && w[0] == '.' then w[1..] else [];
    var n := DigitRun(v);
    var rest := if n > 0 then v[n..] else w;
    (if n > 0 then JavaText.DigitsValue(v[..n]) else 0, SStr(PyText.Strip(rest[..LineEnd(rest)])))
  }

  /** `_parse_version`: the dotted form; else four leading digits `NNnb` read as
      (NN, n, b, ''); else (0, 0, 0, 0) with an integer code. */
  function ParseVersion(s: string): (r: VersionParts)
    ensures r.major >= 0 && r.minor >= 0 && r.build >= 0
    ensures r.code.SInt? ==> r == VersionParts(0, 0, 0, SInt(0))
    ensures r.code.SStr? || r.code.SInt?
  {
    match MatchDotted(s)
    case Some(p) => p
    case None =>
      if |s| >= 4 && JavaText.AllDigits(s[..4]) then
        VersionParts(JavaText.DigitsValue(s[..2]), JavaText.DigitValue(s[2]),
                     JavaText.DigitValue(s[3]), SStr(""))
      else VersionParts(0, 0, 0, SInt(0))
  }

  /** Text with no surrounding whitespace, no newline and no leading digit: what may
      follow the numeric parts and come back as the code. */
  predicate IsCode(code: string) {
    (forall i :: 0 <= i < |code| ==> code[i] != '\n')
    && (code != [] ==> !JavaText.IsDigit(code[0]) && !JavaText.IsRegexSpace(code[0])
                       && !JavaText.IsRegexSpace(code[|code| - 1]))
  }

  /** A code is read back whole by `.*` and the strip. */
  lemma {:induction false} CodeRead(code: string)
    requires IsCode(code)
    ensures PyText.Strip(code[..LineEnd(code)]) == code
  {
    assert code[..LineEnd(code)] == code;
    PyText.StripUnpadded(code);
  }

  /** A point and the digits of `build` before a code give that build and code. */
  lemma {:induction false} BuildAndCodeOf(build: nat, code: string)
    requires IsCode(code)
    ensures BuildAndCode("." + JavaText.NatToString(build) + code) == (build, SStr(code))
  {
    var c := JavaText.NatToString(build);
    var w := "." + c + code;
    assert w[1..] == c + code;
    DigitRunOf(c, code);
    assert (c + code)[..|c|] == c && (c + code)[|c|..] == code;
    JavaText.NatToStringValue(build);
    CodeRead(code);
  }

  /** A code that does not start with a point gives build 0 and comes back whole. */
  lemma {:induction false} NoBuildCode(code: string)
    requires IsCode(code) && (code == [] || code[0] != '.')
    ensures BuildAndCode(code) == (0, SStr(code))
  {
    CodeRead(code);
  }

  /** Digits followed by a non-digit are read as a number, the rest going on. */
  lemma {:induction false} MatchMinorOf(minor: nat, rest: string)
    requires rest == [] || !JavaText.IsDigit(rest[0])
    ensures MatchMinor(JavaText.NatToString(minor) + rest)
         == Some((minor, BuildAndCode(rest).0, BuildAndCode(rest).1))
  {
    var b := JavaText.NatToString(minor);
    DigitRunOf(b, rest);
    assert (b + rest)[..|b|] == b && (b + rest)[|b|..] == rest;
    JavaText.NatToStringValue(minor);
  }

  /** Digits and a point are read as the major number, the rest going on. */
  lemma {:induction false} MatchMajorOf(major: nat, rest: string)
    ensures MatchMajor(JavaText.NatToString(major) + "." + rest)
         == match MatchMinor(rest)
            case None => None
            case Some(p) => Some(VersionParts(major, p.0, p.1, p.2))
  {
    var a := JavaText.NatToString(major);
    var t := a + "." + rest;
    assert t == a + ("." + rest);
    DigitRunOf(a, "." + rest);
    assert t[..|a|] == a && t[|a|] == '.' && t[|a| + 1..] == rest;
    JavaText.NatToStringValue(major);
  }

  /** The optional `v` or `V` is skipped; text starting with a digit is matched as is. */
  lemma {:induction false} MatchDottedPrefix(prefix: string, t: string)
    requires prefix in {"", "v", "V"} && t != [] && JavaText.IsDigit(t[0])
    ensures MatchDotted(prefix + t) == MatchMajor(t)
  {
    if prefix != "" {
      assert (prefix + t)[1..] == t;
    } else {
      assert prefix + t == t;
    }
  }

  /** `M.m.b` followed by a code, with an optional `v` or `V`, decomposes into its parts. */
  lemma {:induction false} ParseDottedVersion(prefix: string, major: nat, minor: nat, build: nat,
                                              code: string)
    requires prefix in {"", "v", "V"} && IsCode(code)
    ensures ParseVersion(prefix + JavaText.NatToString(major) + "." + JavaText.NatToString(minor) + "."
                         + JavaText.NatToString(build) + code)
         == VersionParts(major, minor, build, SStr(code))
  {
    var a := JavaText.NatToString(major);
    var b := JavaText.NatToString(minor);
    var w := "." + JavaText.NatToString(build) + code;
    var rest := b + w;
    DottedRegroup(prefix, a, b, JavaText.NatToString(build), code);
    MatchDottedPrefix(prefix, a + "." + rest);
    MatchMajorOf(major, rest);
    MatchMinorOf(minor, w);
    BuildAndCodeOf(build, code);
  }

  /** The dotted text regrouped from the right, as the matchers take it apart. */
  lemma DottedRegroup(prefix: string, a: string, b: string, c: string, code: string)
    ensures prefix + a + "." + b + "." + c + code == prefix + (a + "." + (b + ("." + c + code)))
  {
  }

  /** `M.m` followed by anything that does not continue the version gives build 0. */
  lemma {:induction false} ParseShortVersion(major: nat, minor: nat, code: string)
    requires IsCode(code) && (code == [] || code[0] != '.')
    ensures ParseVersion(JavaText.NatToString(major) + "." + JavaText.NatToString(minor) + code)
         == VersionParts(major, minor, 0, SStr(code))
  {
    var a := JavaText.NatToString(major);
    var rest := JavaText.NatToString(minor) + code;
    assert a + "." + JavaText.NatToString(minor) + code == "" + (a + "." + rest);
    MatchDottedPrefix("", a + "." + rest);
    MatchMajorOf(major, rest);
    MatchMinorOf(minor, code);
    NoBuildCode(code);
  }

  /** Four leading digits with no point anywhere are read as `NNnb` with an empty code. */
  lemma {:induction false} ParseCompactVersion(s: string)
    requires |s| >= 4 && JavaText.AllDigits(s[..4]) && '.' !in s
    ensures ParseVersion(s) == VersionParts(JavaText.DigitsValue(s[..2]), JavaText.DigitValue(s[2]),
                                            JavaText.DigitValue(s[3]), SStr(""))
  {
    var t := if s != [] && s[0] in {'v', 'V'} then s[1..] else s;
    var n1 := DigitRun(t);
    assert n1 < |t| ==> t[n1] in s;
  }

  /** Text without a digit falls back to all zeros, with the integer 0 as its code. */
  lemma {:induction false} ParseVersionFallback(s: string)
    requires forall i :: 0 <= i < |s| ==> !JavaText.IsDigit(s[i])
    ensures ParseVersion(s) == VersionParts(0, 0, 0, SInt(0))
  {
    var t := if s != [] && s[0] in {'v', 'V'} then s[1..] else s;
    assert t != [] ==> t[0] in s;
    assert DigitRun(t) == 0;
  }

  // ---------------------------------------------------------------------------
  // _rank_to_int
  // ---------------------------------------------------------------------------

  /** `_rank_to_int(rank, thread)`: `thread` 1 asks for the thread number, anything else
      for the rank. A special rank's display name gives its code and no thread; an
      all-digit token gives its value and no thread; any other token must be `R.T` with
      two integer parts, or the call raises. */
  function RankToInt(rank: string, thread: int): (r: Result<Option<int>>)
  {
    match Rank.FindDisplay(rank, 0)
    case Some(k) => Success(if thread == 1 then None else Some(Rank.Specials[k].code))
    case None =>
      if PyText.IsDigits(rank) then
        Success(if thread == 1 then None else Some(JavaText.DigitsValue(rank)))
      else
        var parts := PyText.Split(rank, '.');
        if |parts| != 2 then Failure("ValueError: need exactly 2 values to unpack")
        else
          match PyText.Int(if thread == 1 then parts[1] else parts[0])
          case Some(n) => Success(Some(n))
          case None => Failure("ValueError: invalid literal for int()")
  }

  /** Each special rank name gives its code and never a thread. */
  lemma {:induction false} RankOfSpecial(k: nat, thread: int)
    requires k < |Rank.Specials|
    ensures RankToInt(Rank.Specials[k].display, thread)
         == Success(if thread == 1 then None else Some(-(k as int) - 1))
  {
    var d := Rank.Specials[k].display;
    var f := Rank.FindDisplay(d, 0);
    assert f.Some?;
    assert Rank.Specials[f.value].display == d;
    SpecialDisplaysDistinct(f.value, k);
  }

  /** No two special ranks share a display name. */
  lemma SpecialDisplaysDistinct(i: nat, j: nat)
    requires i < |Rank.Specials| && j < |Rank.Specials|
    requires Rank.Specials[i].display == Rank.Specials[j].display
    ensures i == j
  {
    assert |Rank.Specials[i].display| == |Rank.Specials[j].display|;
    assert Rank.Specials[i].display[1] == Rank.Specials[j].display[1];
    if |Rank.Specials[i].display| == 12 {
      assert Rank.Specials[i].display[6] == Rank.Specials[j].display[6];
    }
  }

  /** A plain number is its own rank, with no thread. */
  lemma {:induction false} RankOfNumber(n: nat, thread: int)
    ensures RankToInt(JavaText.NatToString(n), thread) == Success(if thread == 1 then None else Some(n))
  {
    var s := JavaText.NatToString(n);
    NoSpecialHasDigits(s);
    JavaText.NatToStringValue(n);
  }

  /** Text made of digits is never a special rank's name. */
  lemma NoSpecialHasDigits(s: string)
    requires s != [] && JavaText.AllDigits(s)
    ensures Rank.FindDisplay(s, 0).None?
  {
    if Rank.FindDisplay(s, 0).Some? {
      assert JavaText.IsDigit(s[0]);
      SpecialNameLetters(Rank.FindDisplay(s, 0).value);
      assert false;
    }
  }

  /** A letter or a space: the characters of the special rank names. */
  predicate IsNameChar(c: char) { JavaText.IsUpper(c) || JavaText.IsLower(c) || c == ' ' }

  /** The special rank names are made of letters and spaces. */
  lemma SpecialNameLetters(k: nat)
    requires k < |Rank.Specials|
    ensures forall j :: 0 <= j < |Rank.Specials[k].display| ==> IsNameChar(Rank.Specials[k].display[j])
  {
  }

  /** `R.T` gives rank R and thread T. */
  lemma {:induction false} RankOfRankThread(rank: int, thread: int)
    ensures RankToInt(PyText.IntStr(rank) + "." + PyText.IntStr(thread), 0) == Success(Some(rank))
    ensures RankToInt(PyText.IntStr(rank) + "." + PyText.IntStr(thread), 1) == Success(Some(thread))
  {
    var a := PyText.IntStr(rank);
    var b := PyText.IntStr(thread);
    var s := a + "." + b;
    PyText.IntStrSigns(rank);
    PyText.IntStrSigns(thread);
    assert s[|a|] == '.';
    DottedNotSpecial(s, |a|);
    assert !PyText.IsDigits(s);
    PyText.SplitJoin([a, b], '.');
    assert [a, b][1..] == [b];
    assert PyText.Join(".", [a, b]) == s;
    PyText.IntOfIntStr(rank);
    PyText.IntOfIntStr(thread);
    RankPartsRead(s, a, b, rank, thread);
  }

  /** The last step of `R.T`: the two parts read as integers. */
  lemma {:induction false} RankPartsRead(s: string, a: string, b: string, x: int, y: int)
    requires Rank.FindDisplay(s, 0).None? && !PyText.IsDigits(s)
    requires PyText.Split(s, '.') == [a, b]
    requires PyText.Int(a) == Some(x) && PyText.Int(b) == Some(y)
    ensures RankToInt(s, 0) == Success(Some(x)) && RankToInt(s, 1) == Success(Some(y))
  {
  }

  /** Text with a point is never a special rank's name. */
  lemma DottedNotSpecial(s: string, i: nat)
    requires i < |s| && s[i] == '.'
    ensures Rank.FindDisplay(s, 0).None?
  {
    if Rank.FindDisplay(s, 0).Some? {
      SpecialNameLetters(Rank.FindDisplay(s, 0).value);
      assert false;
    }
  }

  /** The Java reader's `Rank.fromString` rejects the `R.T` form that the Python importer
      reads. */
  lemma {:induction false} JavaRejectsRankThread(rank: nat, thread: nat)
    ensures Rank.FromString(JavaText.NatToString(rank) + "." + JavaText.NatToString(thread)).Failure?
    ensures RankToInt(JavaText.NatToString(rank) + "." + JavaText.NatToString(thread), 0) == Success(Some(rank))
  {
    var s := JavaText.NatToString(rank) + "." + JavaText.NatToString(thread);
    assert s[|JavaText.NatToString(rank)|] == '.';
    DottedNotSpecial(s, |JavaText.NatToString(rank)|);
    assert !JavaText.AllDigits(s) by { assert !JavaText.IsDigit(s[|JavaText.NatToString(rank)|]); }
    assert JavaText.ParseSigned(s).None? by {
      assert !JavaText.AllDigits(s[1..]) by {
        assert s[1..][|JavaText.NatToString(rank)| - 1] == '.';
      }
    }
    RankOfRankThread(rank, thread);
  }

  /** A token that is neither a special name, nor digits, nor two parts around one point
      raises. */
  lemma {:induction false} RankRejected(rank: string, thread: int)
    requires Rank.FindDisplay(rank, 0).None? && !PyText.IsDigits(rank)
    requires '.' !in rank
    ensures RankToInt(rank, thread).Failure?
  {
  }

  // ---------------------------------------------------------------------------
  // Parameter values
  // ---------------------------------------------------------------------------

  /** `^[+-]?\d+$`. */
  predicate IsIntegerText(v: string) { JavaText.ParseSigned(v).Some? }

  /** `^[+-]?\d+\.\d*([eE][+-]?\d+)?$`: digits, a point, optional digits and an optional
      exponent. */
  predicate IsDoubleText(v: string) {
    var l := JavaNumber.Lex(JavaNumber.Sign(v).1);
    l.Some? && l.value.dot && l.value.intDigits != []
  }

  /** The exact value of text matching `IsDoubleText` (what `float()` reads, before
      rounding to a double). */
  function DoubleTextValue(v: string): real
    requires IsDoubleText(v)
  {
    var x := JavaNumber.LiteralValue(JavaNumber.Lex(JavaNumber.Sign(v).1).value);
    if JavaNumber.Sign(v).0 then -x else x
  }

  /** The `Type` column and the three value columns of a parameter. */
  datatype Typed = Typed(valueType: string, double: SqlValue, integer: SqlValue, text: SqlValue)

  /** The typing in `Parameter.__init__`: the stripped value is a lower-case `String` when it
      is `true` or `false` in any case, an `Integer` when it is a signed decimal, a `Double`
      when it is a decimal with a point, and otherwise the `String` itself. */
  function TypeValue(value: string): (r: Typed)
    ensures r.valueType in {"String", "Integer", "Double"}
    ensures (r.valueType == "Integer") == r.integer.SInt? && (r.valueType == "Integer") == (r.integer != SNone)
    ensures (r.valueType == "Double") == r.double.SFloat? && (r.valueType == "Double") == (r.double != SNone)
    ensures (r.valueType == "String") == r.text.SStr? && (r.valueType == "String") == (r.text != SNone)
  {
    var v := PyText.Strip(value);
    var low := PyText.Lower(v);
    if low == "true" || low == "false" then Typed("String", SNone, SNone, SStr(low))
    else if IsIntegerText(v) then Typed("Integer", SNone, SInt(JavaText.ParseSigned(v).value), SNone)
    else if IsDoubleText(v) then Typed("Double", SFloat(DoubleTextValue(v)), SNone, SNone)
    else Typed("String", SNone, SNone, SStr(v))
  }

  /** Exactly one of the three value columns is non-null. */
  lemma {:induction false} OneValueColumn(value: string)
    ensures var r := TypeValue(value);
            || (r.double != SNone && r.integer == SNone && r.text == SNone)
            || (r.double == SNone && r.integer != SNone && r.text == SNone)
            || (r.double == SNone && r.integer == SNone && r.text != SNone)
  {
  }

  /** The decimal of an integer is typed `Integer` with that value. */
  lemma {:induction false} TypeOfInteger(n: int)
    ensures TypeValue(PyText.IntStr(n)) == Typed("Integer", SNone, SInt(n), SNone)
  {
    var t := PyText.IntStr(n);
    PyText.IntStrUnpadded(n);
    PyText.StripUnpadded(t);
    assert PyText.Lower(t)[|t| - 1] == t[|t| - 1];
    ReadIntStr(n);
  }

  /** Surrounding whitespace does not change the typing. */
  lemma {:induction false} TypeValueStripped(value: string)
    ensures TypeValue(PyText.Strip(value)) == TypeValue(value)
  {
    PyText.StripIdempotent(value);
  }

  /** A value that is a boolean word in any case is stored as that word in lower case. */
  lemma {:induction false} TypeOfBoolean(value: string)
    requires PyText.Lower(PyText.Strip(value)) in {"true", "false"}
    ensures TypeValue(value) == Typed("String", SNone, SNone, SStr(PyText.Lower(PyText.Strip(value))))
  {
  }
}
