/** The parts of Python 2's `str`, `list` slicing and `int()` that the PMTM importer relies
    on, stated over `seq<char>` and sequences. Whitespace is the C-locale `isspace` class,
    which is the same six characters as the regular-expression class `\s`. */
module PyText {
  import opened Wrappers
  import JavaText

  /** The number of whitespace characters at the start of `s`. */
  function Leading(s: string): (n: nat)
    ensures n <= |s|
  {
    if s != [] && JavaText.IsRegexSpace(s[0]) then 1 + Leading(s[1..]) else 0
  }

  /** The number of whitespace characters at the end of `s`. */
  function Trailing(s: string): (n: nat)
    ensures n <= |s|
  {
    if s != [] && JavaText.IsRegexSpace(s[|s| - 1]) then 1 + Trailing(s[..|s| - 1]) else 0
  }

  /** `str.strip()` with no argument: `s` without its leading and then its trailing
      whitespace. */
  function Strip(s: string): string {
    var t := s[Leading(s)..];
    t[..|t| - Trailing(t)]
  }

  /** The leading count covers whitespace only and stops at a character that is not. */
  lemma {:induction false} LeadingSpaces(s: string)
    ensures forall k :: 0 <= k < Leading(s) ==> JavaText.IsRegexSpace(s[k])
    ensures Leading(s) < |s| ==> !JavaText.IsRegexSpace(s[Leading(s)])
  {
    if s != [] && JavaText.IsRegexSpace(s[0]) {
      LeadingSpaces(s[1..]);
      assert forall k :: 1 <= k < Leading(s) ==> s[k] == s[1..][k - 1];
    }
  }

  /** The trailing count covers whitespace only and stops at a character that is not. */
  lemma {:induction false} TrailingSpaces(s: string)
    ensures forall k :: |s| - Trailing(s) <= k < |s| ==> JavaText.IsRegexSpace(s[k])
    ensures Trailing(s) < |s| ==> !JavaText.IsRegexSpace(s[|s| - Trailing(s) - 1])
  {
    if s != [] && JavaText.IsRegexSpace(s[|s| - 1]) {
      TrailingSpaces(s[..|s| - 1]);
    }
  }

  /** The stripped text is the infix of `s` after its leading whitespace; it neither starts
      nor ends with whitespace, and only whitespace follows it. */
  lemma {:induction false} StripShape(s: string)
    ensures Leading(s) + |Strip(s)| <= |s| && Strip(s) == s[Leading(s)..Leading(s) + |Strip(s)|]
    ensures Strip(s) != [] ==> !JavaText.IsRegexSpace(Strip(s)[0])
                               && !JavaText.IsRegexSpace(Strip(s)[|Strip(s)| - 1])
    ensures forall k :: 0 <= k < Leading(s) ==> JavaText.IsRegexSpace(s[k])
    ensures forall k :: Leading(s) + |Strip(s)| <= k < |s| ==> JavaText.IsRegexSpace(s[k])
  {
    var l := Leading(s);
    var t := s[l..];
    var r := Strip(s);
    LeadingSpaces(s);
    TrailingSpaces(t);
    assert forall k :: l + |r| <= k < |s| ==> s[k] == t[k - l];
    if r != [] {
      assert r[0] == s[l];
    }
  }

  /** A string without whitespace at either end is its own strip. */
  lemma {:induction false} StripUnpadded(s: string)
    requires s != [] ==> !JavaText.IsRegexSpace(s[0]) && !JavaText.IsRegexSpace(s[|s| - 1])
    ensures Strip(s) == s
  {
    assert Leading(s) == 0;
    assert s[0..] == s;
    assert Trailing(s) == 0;
  }

  /** Stripping is idempotent. */
  lemma {:induction false} StripIdempotent(s: string)
    ensures Strip(Strip(s)) == Strip(s)
  {
    StripShape(s);
    StripUnpadded(Strip(s));
  }

  /** `str.lower()`: ASCII letters folded to lower case, everything else kept. */
  function Lower(s: string): (r: string)
    ensures |r| == |s|
    ensures forall i :: 0 <= i < |s| ==> r[i] == JavaText.ToLowerChar(s[i])
  {
    JavaText.ToLower(s)
  }

  /** Every character of `s`, with `a` replaced by `b` (`str.replace` on one character). */
  function Replace(s: string, a: char, b: char): (r: string)
    ensures |r| == |s|
    ensures forall i :: 0 <= i < |s| ==> r[i] == (if s[i] == a then b else s[i])
  {
    seq(|s|, i requires 0 <= i < |s| => if s[i] == a then b else s[i])
  }

  /** `str.split(d)` for a one-character separator: every piece, empty ones included, so
      there is always one more piece than there are separators. */
  function Split(s: string, d: char): (r: seq<string>)
    ensures |r| >= 1
    ensures forall k :: 0 <= k < |r| ==> d !in r[k]
    ensures d !in s ==> r == [s]
  {
    var r := JavaText.Pieces(s, {d});
    assert forall k :: 0 <= k < |r| ==> JavaText.NoneIn(r[k], {d});
    r
  }

  /** `sep.join(items)`. */
  function Join(sep: string, items: seq<string>): (r: string)
    ensures items == [] ==> r == []
    ensures |items| == 1 ==> r == items[0]
  {
    JavaText.Join(items, sep)
  }

  /** Joining the pieces of a split with the same separator gives the string back. */
  lemma {:induction false} JoinSplit(s: string, d: char)
    ensures Join([d], Split(s, d)) == s
  {
    JavaText.PiecesJoin(s, d);
  }

  /** Splitting a join of separator-free pieces gives the pieces back. */
  lemma {:induction false} SplitJoin(ps: seq<string>, d: char)
    requires ps != [] && forall k :: 0 <= k < |ps| ==> d !in ps[k]
    ensures Split(Join([d], ps), d) == ps
  {
    assert forall k :: 0 <= k < |ps| ==> JavaText.NoneIn(ps[k], {d});
    JavaText.PiecesOfJoin(ps, d, {d});
  }

  /** The text before the first `d` and the rest after it: the first piece of a split and
      the other pieces joined again with `d`. */
  lemma {:induction false} SplitFirst(s: string, d: char)
    ensures var p := Split(s, d);
            if d in s then s == p[0] + [d] + Join([d], p[1..]) else p == [s]
  {
    var p := Split(s, d);
    JoinSplit(s, d);
    assert |p| == 1 ==> s == p[0];
    if d in s {
      assert |p| >= 2;
      assert Join([d], p) == p[0] + [d] + Join([d], p[1..]);
    }
  }

  /** `str.isdigit()`: non-empty and every character a decimal digit. */
  predicate IsDigits(s: string) { s != [] && JavaText.AllDigits(s) }

  /** `int(s)` on text: surrounding whitespace, an optional sign and decimal digits; any
      other text is a `ValueError`. Python integers are unbounded. */
  function Int(s: string): (r: Option<int>)
    ensures r.Some? <==> JavaText.ParseSigned(Strip(s)).Some?
    ensures r.Some? ==> r == JavaText.ParseSigned(Strip(s))
  {
    JavaText.ParseSigned(Strip(s))
  }

  /** `str(n)` of an integer, the same text as Java's decimal form. */
  function IntStr(n: int): (r: string)
    ensures r != []
  {
    JavaText.IntToString(n)
  }

  /** The decimal form of an integer neither starts nor ends with whitespace. */
  lemma {:induction false} IntStrUnpadded(n: int)
    ensures !JavaText.IsRegexSpace(IntStr(n)[0]) && JavaText.IsDigit(IntStr(n)[|IntStr(n)| - 1])
  {
    var t := IntStr(n);
    if n < 0 {
      assert t[|t| - 1] == t[1..][|t| - 2];
    } else {
      assert JavaText.IsDigit(t[0]);
    }
  }

  /** The decimal form of an integer holds only a minus sign and digits. */
  lemma {:induction false} IntStrSigns(n: int)
    ensures forall i :: 0 <= i < |IntStr(n)| ==> IntStr(n)[i] == '-' || JavaText.IsDigit(IntStr(n)[i])
    ensures '.' !in IntStr(n) && ' ' !in IntStr(n) && '=' !in IntStr(n)
  {
    var t := IntStr(n);
    if n < 0 {
      assert forall i :: 1 <= i < |t| ==> t[i] == t[1..][i - 1];
    }
  }

  /** `int(str(n)) == n` for every integer. */
  lemma {:induction false} IntOfIntStr(n: int)
    ensures Int(IntStr(n)) == Some(n)
  {
    var t := IntStr(n);
    IntStrUnpadded(n);
    StripUnpadded(t);
    if n < 0 {
      JavaText.NatToStringValue(-n);
      assert t[1..] == JavaText.NatToString(-n);
      assert JavaText.ParseSigned(t) == Some(n);
    } else {
      JavaText.NatToStringValue(n);
      assert JavaText.ParseSigned(t) == Some(n);
    }
  }

  /** The extended slice `s[from::2]`: every second element starting at `from`. */
  function Every2<T>(s: seq<T>, from: nat): (r: seq<T>)
    ensures |r| == if from < |s| then (|s| - from + 1) / 2 else 0
    ensures forall k :: 0 <= k < |r| ==> from + 2 * k < |s| && r[k] == s[from + 2 * k]
    decreases |s| - from
  {
    if from < |s| then [s[from]] + Every2(s, from + 2) else []
  }

  /** The extended slice `s[:stop:2]`: every second element below `stop`. */
  function Every2Below<T>(s: seq<T>, stop: nat): (r: seq<T>)
    ensures |r| == ((if stop < |s| then stop else |s|) + 1) / 2
    ensures forall k :: 0 <= k < |r| ==> 2 * k < stop && 2 * k < |s| && r[k] == s[2 * k]
  {
    Every2(if stop < |s| then s[..stop] else s, 0)
  }
}
