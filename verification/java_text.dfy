/** The parts of `java.lang.String`, `Integer` and `Long` that the Java side of PMAT relies on,
    stated over `seq<char>`. Case folding is ASCII only. */
module JavaText {
  import opened Wrappers

  // ---------------------------------------------------------------------------
  // Characters
  // ---------------------------------------------------------------------------

  /** `String.trim` removes every character at or below U+0020. */
  predicate IsTrimmable(c: char) { c <= ' ' }

  /** The characters of the regular-expression class `\s`. */
  predicate IsRegexSpace(c: char) {
    c == ' ' || c == '\t' || c == '\n' || c == '\r' || c == 0x0C as char || c == 0x0B as char
  }

  /** The same class as a set, for the splitting functions. */
  const RegexSpaces: set<char> := {' ', '\t', '\n', '\r', 0x0C as char, 0x0B as char}

  predicate IsDigit(c: char) { '0' <= c <= '9' }

  predicate IsUpper(c: char) { 'A' <= c <= 'Z' }

  predicate IsLower(c: char) { 'a' <= c <= 'z' }

  function ToLowerChar(c: char): (r: char)
    ensures IsUpper(c) ==> IsLower(r) && r as int == c as int + 32
    ensures !IsUpper(c) ==> r == c
  {
    if IsUpper(c) then (c as int + 32) as char else c
  }

  function ToUpperChar(c: char): (r: char)
    ensures IsLower(c) ==> IsUpper(r) && r as int == c as int - 32
    ensures !IsLower(c) ==> r == c
  {
    if IsLower(c) then (c as int - 32) as char else c
  }

  predicate AllChars(s: string, p: char -> bool) {
    forall i :: 0 <= i < |s| ==> p(s[i])
  }

  predicate AllDigits(s: string) { forall i :: 0 <= i < |s| ==> IsDigit(s[i]) }

  predicate AllTrimmable(s: string) { forall i :: 0 <= i < |s| ==> IsTrimmable(s[i]) }

  // ---------------------------------------------------------------------------
  // Case
  // ---------------------------------------------------------------------------

  function ToLower(s: string): (r: string)
    ensures |r| == |s|
    ensures forall i :: 0 <= i < |s| ==> r[i] == ToLowerChar(s[i])
  {
    seq(|s|, i requires 0 <= i < |s| => ToLowerChar(s[i]))
  }

  function ToUpper(s: string): (r: string)
    ensures |r| == |s|
    ensures forall i :: 0 <= i < |s| ==> r[i] == ToUpperChar(s[i])
  {
    seq(|s|, i requires 0 <= i < |s| => ToUpperChar(s[i]))
  }

  /** `String.equalsIgnoreCase`. */
  predicate EqualsIgnoreCase(a: string, b: string) { ToLower(a) == ToLower(b) }

  // ---------------------------------------------------------------------------
  // Trimming
  // ---------------------------------------------------------------------------

  function TrimLeft(s: string): (r: string)
    ensures |r| <= |s| && r == s[|s| - |r|..]
    ensures AllTrimmable(s[..|s| - |r|])
    ensures r != [] ==> !IsTrimmable(r[0])
  {
    if s != [] && IsTrimmable(s[0]) then
      var r := TrimLeft(s[1..]);
      assert s[1..][..|s[1..]| - |r|] == s[1..|s| - |r|];
      r
    else s
  }

  function TrimRight(s: string): (r: string)
    ensures |r| <= |s| && r == s[..|r|]
    ensures AllTrimmable(s[|r|..])
    ensures r != [] ==> !IsTrimmable(r[|r| - 1])
  {
    if s != [] && IsTrimmable(s[|s| - 1]) then
      var r := TrimRight(s[..|s| - 1]);
      assert s[..|s| - 1][|r|..] == s[|r|..|s| - 1];
      assert s[|r|..] == s[|r|..|s| - 1] + [s[|s| - 1]];
      r
    else s
  }

  /** The number of trimmable characters at the start of `s`. */
  function LeadingTrimmed(s: string): (n: nat)
    ensures n <= |s|
  {
    |s| - |TrimLeft(s)|
  }

  /** `String.trim`: the longest infix of `s` that starts and ends with a character above
      U+0020; it starts after the leading trimmable characters. */
  function Trim(s: string): (r: string)
    ensures LeadingTrimmed(s) + |r| <= |s|
    ensures r == s[LeadingTrimmed(s)..LeadingTrimmed(s) + |r|]
    ensures AllTrimmable(s[..LeadingTrimmed(s)]) && AllTrimmable(s[LeadingTrimmed(s) + |r|..])
    ensures r != [] ==> !IsTrimmable(r[0]) && !IsTrimmable(r[|r| - 1])
  {
    var l := TrimLeft(s);
    var r := TrimRight(l);
    var i := |s| - |l|;
    assert r == s[i..i + |r|];
    assert s[i + |r|..] == l[|r|..];
    r
  }

  /** Trimming is idempotent. */
  lemma {:induction false} TrimIdempotent(s: string)
    ensures Trim(Trim(s)) == Trim(s)
  {
    var t := Trim(s);
    TrimOfUntrimmable(t);
  }

  /** A string whose ends are not trimmable is its own trim. */
  lemma {:induction false} TrimOfUntrimmable(t: string)
    requires t != [] ==> !IsTrimmable(t[0]) && !IsTrimmable(t[|t| - 1])
    ensures Trim(t) == t
  {
    assert TrimLeft(t) == t;
    assert TrimRight(t) == t;
  }

  /** A leading trimmable character makes no difference to the trimmed text. */
  lemma TrimLeadingSpace(c: char, s: string)
    requires IsTrimmable(c)
    ensures Trim([c] + s) == Trim(s)
  {
    assert ([c] + s)[1..] == s;
  }

  /** Python-style whitespace strip of the `\s` class (used for the comma delimiter). */
  function StripSpaceLeft(s: string): (r: string)
    ensures |r| <= |s| && r == s[|s| - |r|..]
    ensures r != [] ==> !IsRegexSpace(r[0])
    ensures forall i :: 0 <= i < |s| - |r| ==> IsRegexSpace(s[i])
  {
    if s != [] && IsRegexSpace(s[0]) then StripSpaceLeft(s[1..]) else s
  }

  function StripSpaceRight(s: string): (r: string)
    ensures |r| <= |s| && r == s[..|r|]
    ensures r != [] ==> !IsRegexSpace(r[|r| - 1])
    ensures forall i :: |r| <= i < |s| ==> IsRegexSpace(s[i])
  {
    if s != [] && IsRegexSpace(s[|s| - 1]) then StripSpaceRight(s[..|s| - 1]) else s
  }

  // ---------------------------------------------------------------------------
  // Joining and splitting
  // ---------------------------------------------------------------------------

  /** Joins `items` with `sep` between consecutive items (`String.join`, PMAT's `joinStrings`). */
  function Join(items: seq<string>, sep: string): (r: string)
    ensures items == [] ==> r == []
    ensures |items| == 1 ==> r == items[0]
  {
    if items == [] then []
    else if |items| == 1 then items[0]
    else items[0] + sep + Join(items[1..], sep)
  }

  lemma {:induction false} JoinLength(items: seq<string>, sep: string)
    requires items != []
    ensures |Join(items, sep)| == SumLengths(items) + (|items| - 1) * |sep|
  {
    if |items| > 1 {
      JoinLength(items[1..], sep);
    }
  }

  function SumLengths(items: seq<string>): nat {
    if items == [] then 0 else |items[0]| + SumLengths(items[1..])
  }

  lemma {:induction false} JoinAppend(items: seq<string>, x: string, sep: string)
    requires items != []
    ensures Join(items + [x], sep) == Join(items, sep) + sep + x
  {
    if |items| == 1 {
      assert items + [x] == [items[0], x];
    } else {
      assert (items + [x])[1..] == items[1..] + [x];
      JoinAppend(items[1..], x, sep);
    }
  }

  predicate NoneIn(s: string, ds: set<char>) { forall i :: 0 <= i < |s| ==> s[i] !in ds }

  /** Every piece of `s` between delimiter characters from `ds`, keeping empty pieces. */
  function Pieces(s: string, ds: set<char>): (r: seq<string>)
    ensures |r| >= 1
    ensures forall k :: 0 <= k < |r| ==> NoneIn(r[k], ds)
    ensures NoneIn(s, ds) ==> r == [s]
  {
    if s == [] then [[]]
    else
      var rest := Pieces(s[1..], ds);
      if s[0] in ds then [[]] + rest
      else
        assert NoneIn(s, ds) ==> NoneIn(s[1..], ds) && rest == [s[1..]] && [s[0]] + s[1..] == s;
        [[s[0]] + rest[0]] + rest[1..]
  }

  /** Joining the pieces with the one delimiter gives the string back. */
  lemma {:induction false} PiecesJoin(s: string, d: char)
    ensures Join(Pieces(s, {d}), [d]) == s
  {
    if s != [] {
      var rest := Pieces(s[1..], {d});
      PiecesJoin(s[1..], d);
      if s[0] == d {
        assert Pieces(s, {d}) == [[]] + rest;
      } else {
        var r := Pieces(s, {d});
        assert r == [[s[0]] + rest[0]] + rest[1..];
        if |rest| == 1 {
        } else {
          assert r[1..] == rest[1..];
          assert Join(rest, [d]) == rest[0] + [d] + Join(rest[1..], [d]);
        }
      }
    }
  }

  /** A delimiter after a delimiter-free prefix ends the first piece there. */
  lemma {:induction false} PiecesCons(a: string, c: char, b: string, ds: set<char>)
    requires NoneIn(a, ds) && c in ds
    ensures Pieces(a + [c] + b, ds) == [a] + Pieces(b, ds)
  {
    var s := a + [c] + b;
    if a == [] {
      assert s[1..] == b;
    } else {
      assert s[1..] == a[1..] + [c] + b;
      PiecesCons(a[1..], c, b, ds);
      assert [a[0]] + a[1..] == a;
    }
  }

  /** Splitting a join of delimiter-free pieces gives the pieces back. */
  lemma {:induction false} PiecesOfJoin(ps: seq<string>, d: char, ds: set<char>)
    requires ps != [] && d in ds && forall k :: 0 <= k < |ps| ==> NoneIn(ps[k], ds)
    ensures Pieces(Join(ps, [d]), ds) == ps
  {
    if |ps| > 1 {
      PiecesOfJoin(ps[1..], d, ds);
      PiecesCons(ps[0], d, Join(ps[1..], [d]), ds);
      assert ps[0] + [d] + Join(ps[1..], [d]) == Join(ps, [d]);
    }
  }

  /** `split` undoes a join of non-empty, delimiter-free pieces. */
  lemma SplitOfJoin(ps: seq<string>, d: char, ds: set<char>)
    requires ps != [] && d in ds && forall k :: 0 <= k < |ps| ==> NoneIn(ps[k], ds) && ps[k] != []
    ensures Split(Join(ps, [d]), ds) == ps
  {
    PiecesOfJoin(ps, d, ds);
    if |ps| > 1 {
      var j := Join(ps, [d]);
      assert j == ps[0] + [d] + Join(ps[1..], [d]);
      assert j[|ps[0]|] == d;
    }
  }

  /** Drops the empty strings at the end of `items`, as `String.split` does. */
  function DropTrailingEmpty(items: seq<string>): (r: seq<string>)
    ensures |r| <= |items| && r == items[..|r|]
    ensures r != [] ==> r[|r| - 1] != []
    ensures forall k :: |r| <= k < |items| ==> items[k] == []
  {
    if items == [] then []
    else if items[|items| - 1] == [] then DropTrailingEmpty(items[..|items| - 1])
    else items
  }

  /** A string that does not end with a delimiter has a non-empty last piece. */
  lemma {:induction false} PiecesLastNonEmpty(s: string, ds: set<char>)
    requires s != [] && s[|s| - 1] !in ds
    ensures Pieces(s, ds)[|Pieces(s, ds)| - 1] != []
  {
    if |s| > 1 {
      PiecesLastNonEmpty(s[1..], ds);
    }
  }

  /** Splitting on one delimiter and joining with it gives the string back, unless the
      string ends with the delimiter (trailing empty pieces are dropped). */
  lemma JoinOfSplit(s: string, d: char)
    requires s == [] || s[|s| - 1] != d
    ensures Join(Split(s, {d}), [d]) == s
  {
    if !NoneIn(s, {d}) {
      PiecesLastNonEmpty(s, {d});
      PiecesJoin(s, d);
    }
  }

  /** `s.split(regex)` for a regular expression matching exactly one character of `ds`:
      with no match the result is `[s]`, otherwise the pieces without trailing empty strings. */
  function Split(s: string, ds: set<char>): (r: seq<string>)
    ensures NoneIn(s, ds) ==> r == [s]
    ensures !NoneIn(s, ds) ==> r == DropTrailingEmpty(Pieces(s, ds))
    ensures forall k :: 0 <= k < |r| ==> NoneIn(r[k], ds)
  {
    if NoneIn(s, ds) then [s] else DropTrailingEmpty(Pieces(s, ds))
  }

  /** The pieces of `s.split("\\s*,\\s*")` before trailing empty strings are removed: the
      comma pieces, where every piece but the last loses trailing `\s` characters and every
      piece but the first loses leading ones. */
  function CommaPieces(s: string): (r: seq<string>)
    ensures |r| == |Pieces(s, {','})|
    ensures forall k :: 0 <= k < |r| ==> NoneIn(r[k], {','})
  {
    var p := Pieces(s, {','});
    seq(|p|, k requires 0 <= k < |p| =>
      var a := if k > 0 then StripSpaceLeft(p[k]) else p[k];
      if k < |p| - 1 then StripSpaceRight(a) else a)
  }

  /** `s.split("\\s*,\\s*")`, the PMTM field delimiter. */
  function SplitComma(s: string): (r: seq<string>)
    ensures ',' !in s ==> r == [s]
    ensures ',' in s ==> r == DropTrailingEmpty(CommaPieces(s))
  {
    if ',' !in s then [s] else DropTrailingEmpty(CommaPieces(s))
  }

  /** Splits on maximal runs of characters satisfying `isSep` (`split("\\s+")` and similar):
      a leading run gives one empty first field, trailing empty strings are removed. */
  function SplitRuns(s: string, ds: set<char>): (r: seq<string>)
    ensures NoneIn(s, ds) ==> r == [s]
    ensures forall k :: 0 <= k < |r| ==> NoneIn(r[k], ds)
  {
    if NoneIn(s, ds) then [s] else DropTrailingEmpty(RunPieces(s, ds))
  }

  /** The pieces between maximal runs of delimiters; only the first piece can be empty
      (when `s` starts with a delimiter) besides a final one. */
  function RunPieces(s: string, ds: set<char>): (r: seq<string>)
    ensures |r| >= 1
    ensures forall k :: 0 <= k < |r| ==> NoneIn(r[k], ds)
    ensures forall k :: 0 < k < |r| - 1 ==> r[k] != []
  {
    var p := Pieces(s, ds);
    var inner := Filter(p[1..]);
    if |p| == 1 then p
    else if p[|p| - 1] == [] then [p[0]] + inner + [[]]
    else [p[0]] + inner[..|inner| - 1] + [p[|p| - 1]]
  }

  /** The non-empty items of `items`, in order. */
  function Filter(items: seq<string>): (r: seq<string>)
    ensures |r| <= |items|
    ensures forall k :: 0 <= k < |r| ==> r[k] != [] && r[k] in items
    ensures forall k :: 0 <= k < |items| && items[k] != [] ==> items[k] in r
    ensures items != [] && items[|items| - 1] != [] ==> r != [] && r[|r| - 1] == items[|items| - 1]
  {
    if items == [] then []
    else
      var rest := Filter(items[..|items| - 1]);
      assert forall k :: 0 <= k < |items| - 1 ==> items[k] == items[..|items| - 1][k];
      if items[|items| - 1] == [] then rest else rest + [items[|items| - 1]]
  }

  /** A sequence of non-empty strings is its own filtered form. */
  lemma {:induction false} FilterNonEmpty(items: seq<string>)
    requires forall k :: 0 <= k < |items| ==> items[k] != []
    ensures Filter(items) == items
  {
    if items != [] {
      FilterNonEmpty(items[..|items| - 1]);
      assert items[..|items| - 1] + [items[|items| - 1]] == items;
    }
  }

  /** Non-empty tokens without delimiters, joined by one delimiter, split on delimiter
      runs back into those tokens. */
  lemma SplitRunsOfJoin(ps: seq<string>, d: char, ds: set<char>)
    requires |ps| >= 2 && d in ds && forall k :: 0 <= k < |ps| ==> NoneIn(ps[k], ds) && ps[k] != []
    ensures SplitRuns(Join(ps, [d]), ds) == ps
  {
    var j := Join(ps, [d]);
    assert !NoneIn(j, ds) by {
      assert j == ps[0] + [d] + Join(ps[1..], [d]);
      assert j[|ps[0]|] == d;
    }
    PiecesOfJoin(ps, d, ds);
    RunPiecesOfJoin(ps, j, ds);
    assert DropTrailingEmpty(ps) == ps;
  }

  lemma RunPiecesOfJoin(ps: seq<string>, j: string, ds: set<char>)
    requires |ps| >= 2 && Pieces(j, ds) == ps && forall k :: 0 <= k < |ps| ==> ps[k] != []
    ensures RunPieces(j, ds) == ps
  {
    var tail := ps[1..];
    FilterNonEmpty(tail);
    RunPiecesInner(j, ds);
    Reassemble(ps);
  }

  /** With a non-empty last piece, the run pieces keep the first and last pieces and the
      non-empty ones between. */
  lemma RunPiecesInner(s: string, ds: set<char>)
    requires |Pieces(s, ds)| > 1 && Pieces(s, ds)[|Pieces(s, ds)| - 1] != []
    ensures var p := Pieces(s, ds); var inner := Filter(p[1..]);
            inner != [] && RunPieces(s, ds) == [p[0]] + inner[..|inner| - 1] + [p[|p| - 1]]
  {
  }

  lemma Reassemble(ps: seq<string>)
    requires |ps| >= 2
    ensures [ps[0]] + ps[1..][..|ps| - 2] + [ps[|ps| - 1]] == ps
  {
    assert ps[1..][..|ps| - 2] == ps[1..|ps| - 1];
  }

  // ---------------------------------------------------------------------------
  // Prefixes and comparison
  // ---------------------------------------------------------------------------

  predicate StartsWith(s: string, p: string) { |p| <= |s| && s[..|p|] == p }

  predicate EndsWith(s: string, p: string) { |p| <= |s| && s[|s| - |p|..] == p }

  /** `String.compareTo`: the difference of the first differing characters, else of the lengths. */
  function CompareTo(a: string, b: string): (r: int)
    ensures r == 0 <==> a == b
    ensures StartsWith(b, a) && a != b ==> r < 0
  {
    if a == [] || b == [] then |a| - |b|
    else if a[0] != b[0] then a[0] as int - b[0] as int
    else
      var r := CompareTo(a[1..], b[1..]);
      assert a == [a[0]] + a[1..] && b == [b[0]] + b[1..];
      r
  }

  lemma {:induction false} CompareToAntisymmetric(a: string, b: string)
    ensures CompareTo(b, a) == -CompareTo(a, b)
  {
    if a != [] && b != [] && a[0] == b[0] {
      CompareToAntisymmetric(a[1..], b[1..]);
    }
  }

  /** `String.compareToIgnoreCase` (ASCII folding). */
  function CompareToIgnoreCase(a: string, b: string): (r: int)
    ensures r == 0 <==> EqualsIgnoreCase(a, b)
  {
    CompareTo(ToLower(a), ToLower(b))
  }

  lemma CompareToIgnoreCaseAntisymmetric(a: string, b: string)
    ensures CompareToIgnoreCase(b, a) == -CompareToIgnoreCase(a, b)
  {
    CompareToAntisymmetric(ToLower(a), ToLower(b));
  }

  // ---------------------------------------------------------------------------
  // Integers
  // ---------------------------------------------------------------------------

  const IntMin: int := -0x8000_0000
  const IntMax: int := 0x7FFF_FFFF
  const LongMin: int := -0x8000_0000_0000_0000
  const LongMax: int := 0x7FFF_FFFF_FFFF_FFFF

  predicate IsInt32(n: int) { IntMin <= n <= IntMax }

  function DigitChar(d: int): (c: char)
    requires 0 <= d < 10
    ensures IsDigit(c)
  {
    ('0' as int + d) as char
  }

  function DigitValue(c: char): (d: nat)
    requires IsDigit(c)
    ensures d < 10 && DigitChar(d) == c
  {
    c as int - '0' as int
  }

  /** The value of a string of decimal digits. */
  function DigitsValue(s: string): nat
    requires AllDigits(s)
  {
    if s == [] then 0 else DigitsValue(s[..|s| - 1]) * 10 + DigitValue(s[|s| - 1])
  }

  /** The decimal form of `n` without leading zeros. */
  function NatToString(n: nat): (r: string)
    ensures r != [] && AllDigits(r)
    ensures |r| > 1 ==> r[0] != '0'
    decreases n
  {
    if n < 10 then [DigitChar(n)] else NatToString(n / 10) + [DigitChar(n % 10)]
  }

  lemma {:induction false} NatToStringValue(n: nat)
    ensures DigitsValue(NatToString(n)) == n
    decreases n
  {
    if n >= 10 {
      var s := NatToString(n);
      NatToStringValue(n / 10);
      assert s[..|s| - 1] == NatToString(n / 10);
    }
  }

  /** `Integer.toString` / `String.valueOf(int)`. */
  function IntToString(n: int): (r: string)
    ensures n >= 0 ==> AllDigits(r)
    ensures n < 0 ==> r != [] && r[0] == '-' && AllDigits(r[1..])
  {
    if n < 0 then "-" + NatToString(-n) else NatToString(n)
  }

  /** The value of `[+-]?[0-9]+`, or None for any other text (no range check). */
  function ParseSigned(s: string): (r: Option<int>)
    ensures r.Some? <==> (s != [] && (s[0] == '+' || s[0] == '-' ==> |s| > 1 && AllDigits(s[1..]))
                            && (s[0] != '+' && s[0] != '-' ==> AllDigits(s)))
  {
    if s == [] then None
    else if s[0] == '-' then
      if |s| > 1 && AllDigits(s[1..]) then Some(-(DigitsValue(s[1..]) as int)) else None
    else if s[0] == '+' then
      if |s| > 1 && AllDigits(s[1..]) then Some(DigitsValue(s[1..])) else None
    else if AllDigits(s) then Some(DigitsValue(s)) else None
  }

  /** `Integer.parseInt` (and `Integer.valueOf`): a signed decimal in the 32-bit range. */
  function ParseInt(s: string): (r: Option<int>)
    ensures r.Some? ==> IsInt32(r.value) && ParseSigned(s) == r
    ensures ParseSigned(s).Some? && IsInt32(ParseSigned(s).value) ==> r.Some?
  {
    match ParseSigned(s)
    case Some(n) => if IsInt32(n) then Some(n) else None
    case None => None
  }

  /** `Long.parseLong`: a signed decimal in the 64-bit range. */
  function ParseLong(s: string): (r: Option<int>)
    ensures r.Some? ==> LongMin <= r.value <= LongMax && ParseSigned(s) == r
    ensures ParseSigned(s).Some? && LongMin <= ParseSigned(s).value <= LongMax ==> r.Some?
  {
    match ParseSigned(s)
    case Some(n) => if LongMin <= n <= LongMax then Some(n) else None
    case None => None
  }

  /** Reduces an integer to Java's 32-bit two's-complement range (`int` overflow). */
  function Wrap32(x: int): (r: int)
    ensures IsInt32(r)
    ensures IsInt32(x) ==> r == x
    ensures (r - x) % 0x1_0000_0000 == 0
  {
    var m := x % 0x1_0000_0000;
    if m > IntMax then m - 0x1_0000_0000 else m
  }

  /** Adding one always changes the wrapped value: the wrap-around goes from `IntMax` to
      the least `int`, never to the same number. */
  lemma Wrap32Successor(x: int)
    ensures Wrap32(x + 1) != Wrap32(x)
  {
    var m := x % 0x1_0000_0000;
    if m == 0xFFFF_FFFF {
      assert (x + 1) % 0x1_0000_0000 == 0;
    } else {
      assert (x + 1) % 0x1_0000_0000 == m + 1;
    }
  }

  /** `String.hashCode`: `s[0]*31^(n-1) + ... + s[n-1]` in 32-bit arithmetic. */
  function StringHash(s: string): (h: int)
    ensures IsInt32(h)
  {
    if s == [] then 0 else Wrap32(31 * StringHash(s[..|s| - 1]) + s[|s| - 1] as int)
  }

  /** A `java.util.Date`: milliseconds since the epoch, a signed 64-bit count. */
  type Date = t: int | LongMin <= t <= LongMax

  /** `Date.compareTo` (and `Long.compare`): -1, 0 or 1. */
  function CompareLong(a: int, b: int): (r: int)
    ensures r == 0 <==> a == b
    ensures r < 0 <==> a < b
    ensures -1 <= r <= 1
  {
    if a < b then -1 else if a == b then 0 else 1
  }

  /** `Long.hashCode`, which `Date.hashCode` uses on the milliseconds: the two 32-bit
      halves of the 64-bit value exclusive-ored together. */
  function LongHash(t: int): (h: int)
    requires LongMin <= t <= LongMax
    ensures IsInt32(h)
  {
    var u := (if t < 0 then t + 0x1_0000_0000_0000_0000 else t) as bv64;
    Wrap32(((u ^ (u >> 32)) & 0xFFFF_FFFF) as int)
  }

  /** String concatenation of a possibly-null string: `null` prints as "null". */
  function NullText(o: Option<string>): (r: string)
    ensures o.Some? ==> r == o.value
    ensures o.None? ==> r == "null"
  {
    match o
    case Some(s) => s
    case None => "null"
  }

  /** String concatenation of a possibly-null `Integer`. */
  function IntText(o: Option<int>): (r: string)
    ensures o.Some? ==> r == IntToString(o.value)
    ensures o.None? ==> r == "null"
  {
    match o
    case Some(n) => IntToString(n)
    case None => "null"
  }

  /** Parsing the decimal form of an int gives the int back. */
  lemma {:induction false} ParseIntToString(n: int)
    requires IsInt32(n)
    ensures ParseInt(IntToString(n)) == Some(n)
  {
    if n < 0 {
      NatToStringValue(-n);
      assert IntToString(n)[1..] == NatToString(-n);
    } else {
      NatToStringValue(n);
    }
  }

  /** The number of times `c` occurs in `s`. */
  function CountOf(c: char, s: string): (n: nat)
    ensures n <= |s|
  {
    if s == [] then 0 else (if s[0] == c then 1 else 0) + CountOf(c, s[1..])
  }

  /** Counting distributes over concatenation. */
  lemma {:induction false} CountOfAppend(c: char, a: string, b: string)
    ensures CountOf(c, a + b) == CountOf(c, a) + CountOf(c, b)
  {
    if a == [] {
      assert a + b == b;
    } else {
      assert (a + b)[0] == a[0] && (a + b)[1..] == a[1..] + b;
      CountOfAppend(c, a[1..], b);
    }
  }

  /** Text without `c` counts none. */
  lemma {:induction false} CountOfAbsent(c: char, s: string)
    requires forall i :: 0 <= i < |s| ==> s[i] != c
    ensures CountOf(c, s) == 0
  {
    if s != [] {
      CountOfAbsent(c, s[1..]);
    }
  }
}
