/** Java `double` values and the decimal number syntaxes the loaders accept. A double is
    modelled by the exact value of its decimal text; rounding to 64-bit binary is not
    modelled. */
module JavaNumber {
  import opened Wrappers
  import opened JavaText

  datatype Dbl = Finite(x: real) | PosInf | NegInf | NaN

  /** `x * 10^e` for a signed exponent, by repeated multiplication or division by ten. */
  function Scale(x: real, e: int): (r: real)
    ensures x >= 0.0 ==> r >= 0.0
    decreases if e >= 0 then e else -e
  {
    if e == 0 then x
    else if e > 0 then 10.0 * Scale(x, e - 1)
    else Scale(x, e + 1) / 10.0
  }

  /** `2^e`. */
  function Pow2(e: nat): (r: nat)
    ensures r >= 1
  {
    if e == 0 then 1 else 2 * Pow2(e - 1)
  }

  /** `Double.MAX_VALUE`, (2 - 2^-52) * 2^1023. */
  const DoubleMax: real := (0x1F_FFFF_FFFF_FFFF * Pow2(971)) as real

  /** Cuts `s` at the first character of `cs`: the text before it, and that character
      with the text after it, if there is one. */
  function Cut(s: string, cs: set<char>): (r: (string, Option<(char, string)>))
    ensures NoneIn(r.0, cs)
    ensures r.1.None? ==> r.0 == s
    ensures r.1.Some? ==> r.1.value.0 in cs && s == r.0 + [r.1.value.0] + r.1.value.1
  {
    if s == [] then ([], None)
    else if s[0] in cs then ([], Some((s[0], s[1..])))
    else
      var (a, rest) := Cut(s[1..], cs);
      assert rest.Some? ==> s == [s[0]] + a + [rest.value.0] + rest.value.1;
      ([s[0]] + a, rest)
  }

  /** Cutting text built from a `cs`-free prefix finds exactly that prefix. */
  lemma {:induction false} CutAt(a: string, c: Option<(char, string)>, cs: set<char>)
    requires NoneIn(a, cs) && (c.Some? ==> c.value.0 in cs)
    ensures Cut(a + (if c.Some? then [c.value.0] + c.value.1 else []), cs) == (a, c)
  {
    var s := a + (if c.Some? then [c.value.0] + c.value.1 else []);
    if a == [] {
      if c.Some? {
        assert s[0] == c.value.0 && s[1..] == c.value.1;
      }
    } else {
      assert s[0] == a[0] && a[0] !in cs;
      assert s[1..] == a[1..] + (if c.Some? then [c.value.0] + c.value.1 else []);
      CutAt(a[1..], c, cs);
      assert [a[0]] + a[1..] == a;
    }
  }

  /** An unsigned decimal literal split into its parts: integer digits, an optional point
      with fraction digits, and an optional exponent (marker and signed digits). */
  datatype Literal = Literal(intDigits: string, dot: bool, fracDigits: string,
                             exp: Option<(char, string)>)

  predicate WellFormed(l: Literal) {
    AllDigits(l.intDigits) && AllDigits(l.fracDigits) && (!l.dot ==> l.fracDigits == [])
    && (l.exp.Some? ==> l.exp.value.0 in {'e', 'E'} && ParseSigned(l.exp.value.1).Some?)
  }

  function Mantissa(l: Literal): string {
    l.intDigits + (if l.dot then "." + l.fracDigits else "")
  }

  /** The text of a literal. */
  function Render(l: Literal): string {
    Mantissa(l) + (if l.exp.Some? then [l.exp.value.0] + l.exp.value.1 else "")
  }

  /** Splits `d* (. d*)? ([eE] [+-]? d+)?` into its parts. */
  function Lex(s: string): (r: Option<Literal>)
    ensures r.Some? ==> WellFormed(r.value) && Render(r.value) == s
  {
    var outer := Cut(s, {'e', 'E'});
    var inner := Cut(outer.0, {'.'});
    var fp := if inner.1.Some? then inner.1.value.1 else "";
    var ex := outer.1;
    if AllDigits(inner.0) && AllDigits(fp) && (ex.Some? ==> ParseSigned(ex.value.1).Some?) then
      var l := Literal(inner.0, inner.1.Some?, fp, ex);
      assert Mantissa(l) == outer.0;
      Some(l)
    else None
  }

  /** Every well-formed literal lexes back to itself. */
  lemma {:induction false} LexRender(l: Literal)
    requires WellFormed(l)
    ensures Lex(Render(l)) == Some(l)
  {
    var mant := Mantissa(l);
    assert NoneIn(l.intDigits, {'e', 'E', '.'}) && NoneIn(l.fracDigits, {'e', 'E', '.'});
    assert NoneIn(mant, {'e', 'E'});
    CutAt(mant, l.exp, {'e', 'E'});
    var dt := if l.dot then Some(('.', l.fracDigits)) else None;
    assert mant == l.intDigits + (if dt.Some? then [dt.value.0] + dt.value.1 else []);
    CutAt(l.intDigits, dt, {'.'});
  }

  /** The exact value of a well-formed literal: its digits read as one integer, scaled by
      the exponent less the number of fraction digits. */
  function LiteralValue(l: Literal): (r: real)
    requires WellFormed(l)
    ensures r >= 0.0
  {
    var e := if l.exp.Some? then ParseSigned(l.exp.value.1).value else 0;
    Scale(DigitsValue(l.intDigits + l.fracDigits) as real, e - |l.fracDigits|)
  }

  /** An optional leading sign and the rest of the text. */
  function Sign(s: string): (r: (bool, string))
    ensures |r.1| <= |s| && (r.1 == s || r.1 == s[1..])
    ensures r.0 ==> s != [] && s[0] == '-'
  {
    if s != [] && (s[0] == '+' || s[0] == '-') then (s[0] == '-', s[1..]) else (false, s)
  }

  /** The regular expression `[+-]?[0-9]*\.[0-9]+([Ee][+-]?[0-9]+)?` (SkaMPI and PMTM floats). */
  predicate IsFloatText(s: string) {
    var l := Lex(Sign(s).1);
    l.Some? && l.value.dot && |l.value.fracDigits| >= 1
  }

  /** The PMTM variant `[+-]?(INF|[0-9]*\.[0-9]+([Ee][+-]?[0-9]+)?)`. */
  predicate IsPmtmFloatText(s: string) {
    IsFloatText(s) || Sign(s).1 == "INF"
  }

  /** The regular expression `[+-]?[0-9]+`. */
  predicate IsIntegerText(s: string) {
    ParseSigned(s).Some?
  }

  /** The signed value of text accepted by `IsFloatText`. */
  function FloatTextValue(s: string): (r: real)
    requires IsFloatText(s)
  {
    var v := LiteralValue(Lex(Sign(s).1).value);
    if Sign(s).0 then -v else v
  }

  /** The value of an unsigned decimal literal with at least one digit. */
  function DecimalValue(body: string): (r: Option<real>)
    ensures r.Some? ==> r.value >= 0.0
  {
    match Lex(body)
    case Some(l) => if |l.intDigits| + |l.fracDigits| >= 1 then Some(LiteralValue(l)) else None
    case None => None
  }

  /** Drops one trailing `fFdD` type suffix. */
  function DropTypeSuffix(t: string): (r: string)
    ensures r == t || (t != [] && r == t[..|t| - 1] && t[|t| - 1] in {'f', 'F', 'd', 'D'})
  {
    if t != [] && t[|t| - 1] in {'f', 'F', 'd', 'D'} then t[..|t| - 1] else t
  }

  /** `Double.parseDouble` after the sign: `Infinity`, `NaN` or a decimal literal with at
      at least one digit, optionally followed by one of `fFdD`. */
  function ParseUnsignedDouble(rest: string): (r: Option<Dbl>)
    ensures r.Some? && r.value.Finite? ==> r.value.x >= 0.0
  {
    if rest == "Infinity" then Some(PosInf)
    else if rest == "NaN" then Some(NaN)
    else
      match DecimalValue(DropTypeSuffix(rest))
      case Some(v) => Some(Finite(v))
      case None => None
  }

  function Negate(d: Dbl): Dbl {
    match d
    case Finite(x) => Finite(-x)
    case PosInf => NegInf
    case NegInf => PosInf
    case NaN => NaN
  }

  /** `Double.parseDouble`: surrounding whitespace is trimmed, then an optional sign and an
      unsigned double. Anything else is a `NumberFormatException`. */
  function ParseDouble(s: string): (r: Option<Dbl>)
    ensures r.Some? && r.value.Finite? && r.value.x < 0.0 ==> Sign(Trim(s)).0
  {
    var sg := Sign(Trim(s));
    match ParseUnsignedDouble(sg.1)
    case Some(d) => Some(if sg.0 then Negate(d) else d)
    case None => None
  }

  /** A literal with fraction digits ends with a digit. */
  lemma RenderEndsWithDigit(l: Literal)
    requires WellFormed(l) && l.dot && |l.fracDigits| >= 1
    ensures Render(l) != [] && IsDigit(Render(l)[|Render(l)| - 1])
  {
    var r := Render(l);
    if l.exp.Some? {
      var e := l.exp.value.1;
      assert IsDigit(e[|e| - 1]) by {
        assert e != [] && (e[0] == '+' || e[0] == '-' ==> |e| > 1 && AllDigits(e[1..]));
        if e[0] == '+' || e[0] == '-' {
          assert e[|e| - 1] == e[1..][|e| - 2];
        }
      }
      assert r == Mantissa(l) + ([l.exp.value.0] + e);
      assert r[|r| - 1] == e[|e| - 1];
    } else {
      var f := l.fracDigits;
      assert r == (l.intDigits + ".") + f;
      assert r[|r| - 1] == f[|f| - 1];
    }
  }

  /** The unsigned part of a text shares its last character, and its first when unsigned. */
  lemma SignEnds(s: string)
    requires Sign(s).1 != []
    ensures s[|s| - 1] == Sign(s).1[|Sign(s).1| - 1]
    ensures s[0] == '+' || s[0] == '-' || s[0] == Sign(s).1[0]
  {
  }

  /** A literal with a digit or a point first does not start with whitespace. */
  lemma RenderStart(l: Literal)
    requires WellFormed(l) && l.dot
    ensures Render(l) != [] && !IsTrimmable(Render(l)[0])
  {
    if l.intDigits != [] {
      assert Render(l)[0] == l.intDigits[0];
    } else {
      assert Render(l)[0] == '.';
    }
  }

  /** Float text starts with a sign, a digit or a point and ends with a digit. */
  lemma FloatTextEnds(s: string)
    requires IsFloatText(s)
    ensures s != [] && !IsTrimmable(s[0]) && IsDigit(s[|s| - 1])
  {
    var rest := Sign(s).1;
    var l := Lex(rest).value;
    RenderEndsWithDigit(l);
    RenderStart(l);
    SignEnds(s);
  }

  lemma DigitEndIsNotWord(rest: string)
    requires rest != [] && IsDigit(rest[|rest| - 1])
    ensures rest != "Infinity" && rest != "NaN" && DropTypeSuffix(rest) == rest
  {
  }

  /** Float text is its own trim. */
  lemma FloatTextTrimmed(s: string)
    requires IsFloatText(s)
    ensures Trim(s) == s
  {
    FloatTextEnds(s);
    TrimOfUntrimmable(s);
  }

  lemma ParseDoubleTrimmed(s: string, d: Dbl)
    requires Trim(s) == s && ParseUnsignedDouble(Sign(s).1) == Some(d)
    ensures ParseDouble(s) == Some(if Sign(s).0 then Negate(d) else d)
  {
  }

  lemma UnsignedFloatText(s: string)
    requires IsFloatText(s)
    ensures ParseUnsignedDouble(Sign(s).1) == Some(Finite(LiteralValue(Lex(Sign(s).1).value)))
  {
    var rest := Sign(s).1;
    FloatTextEnds(s);
    SignEnds(s);
    DigitEndIsNotWord(rest);
    var l := Lex(rest).value;
    assert |l.intDigits| + |l.fracDigits| >= 1;
    assert DecimalValue(rest) == Some(LiteralValue(l));
  }

  /** Text matching the float regular expression is parsed by `Double.parseDouble` to its
      exact decimal value. */
  lemma ParseDoubleFloatText(s: string)
    requires IsFloatText(s)
    ensures ParseDouble(s) == Some(Finite(FloatTextValue(s)))
  {
    var v := LiteralValue(Lex(Sign(s).1).value);
    FloatTextTrimmed(s);
    UnsignedFloatText(s);
    ParseDoubleTrimmed(s, Finite(v));
    FloatTextValueSign(s, v);
    SignedFinite(ParseDouble(s), Sign(s).0, v, FloatTextValue(s));
  }

  lemma FloatTextValueSign(s: string, v: real)
    requires IsFloatText(s) && v == LiteralValue(Lex(Sign(s).1).value)
    ensures FloatTextValue(s) == if Sign(s).0 then -v else v
  {
  }

  lemma SignedFinite(p: Option<Dbl>, neg: bool, v: real, w: real)
    requires p == Some(if neg then Negate(Finite(v)) else Finite(v))
    requires w == if neg then -v else v
    ensures p == Some(Finite(w))
  {
  }

  lemma LexIN()
    ensures Lex("IN").None?
  {
    CutAt("IN", None, {'e', 'E'});
    CutAt("IN", None, {'.'});
    assert !IsDigit("IN"[0]);
  }

  /** The float syntax does not admit `INF`. */
  lemma FloatTextNotInf(s: string)
    requires IsFloatText(s)
    ensures IsPmtmFloatText(s) && Sign(s).1 != "INF"
  {
    LexIN();
  }

  /** Text that is `INF` after trimming and an optional sign matches the PMTM float syntax,
      but `Double.parseDouble` rejects it. */
  lemma InfRejected(s: string)
    requires Sign(Trim(s)).1 == "INF"
    ensures IsPmtmFloatText(Trim(s))
    ensures ParseDouble(s).None?
  {
    assert DropTypeSuffix("INF") == "IN";
    LexIN();
    assert DecimalValue("IN").None?;
  }
}
