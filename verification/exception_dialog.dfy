/** The text the exception dialog shows: the exception's class name and message, with
    long lines broken by `<br/>` at the first space after sixty characters. */
module ExceptionDialog {
  import opened Wrappers
  import JavaText

  /** The width after which a line is broken at its next space. */
  const MaxWidth := 60

  const Break := "<br/>"

  /** `s.indexOf(' ', from)`: the first space at or after `from`. */
  function SpaceFrom(s: string, from: nat): (r: Option<nat>)
    ensures r.Some? ==> from <= r.value < |s| && s[r.value] == ' '
                        && forall j :: from <= j < r.value ==> s[j] != ' '
    ensures r.None? ==> forall j :: from <= j < |s| ==> s[j] != ' '
    decreases |s| - from
  {
    if from >= |s| then None
    else if s[from] == ' ' then Some(from)
    else SpaceFrom(s, from + 1)
  }

  /** The pieces a line is cut into: while the rest is longer than the width and has a
      space at or after it, the text before that space is a piece and the space is
      dropped; what remains is the last piece unless it is empty. */
  function Segments(line: string): (r: seq<string>)
    ensures r == [] <==> line == []
    ensures forall k :: 0 <= k < |r| ==> r[k] != []
    decreases |line|
  {
    if |line| <= MaxWidth then (if line == [] then [] else [line])
    else
      match SpaceFrom(line, MaxWidth)
      case None => [line]
      case Some(i) => [line[..i]] + Segments(line[i + 1..])
  }

  /** `wrapLine(line)`: the pieces joined by `<br/>`. */
  function WrapLine(line: string): (r: string)
    ensures |line| <= MaxWidth ==> r == line
  {
    JavaText.Join(Segments(line), Break)
  }

  /** Every piece but the last is at least the width long and was ended by the first space
      at or after the width; the last piece is either within the width or has no space at
      or after it. */
  lemma {:induction false} SegmentsBreakAtFirstSpace(line: string)
    ensures var s := Segments(line);
            && (forall k :: 0 <= k < |s| - 1 ==> |s[k]| >= MaxWidth && ' ' !in s[k][MaxWidth..])
            && (s != [] ==> var last := s[|s| - 1];
                            |last| <= MaxWidth || SpaceFrom(last, MaxWidth).None?)
    decreases |line|
  {
    if |line| > MaxWidth {
      match SpaceFrom(line, MaxWidth)
      case None =>
      case Some(i) =>
        var rest := line[i + 1..];
        SegmentsBreakAtFirstSpace(rest);
        var s := Segments(line);
        assert s == [line[..i]] + Segments(rest);
        assert forall j :: MaxWidth <= j < i ==> line[..i][j] != ' ';
        assert ' ' !in line[..i][MaxWidth..] by {
          forall j | 0 <= j < |line[..i][MaxWidth..]|
            ensures line[..i][MaxWidth..][j] != ' '
          {
            assert line[..i][MaxWidth..][j] == line[MaxWidth + j];
          }
        }
    }
  }

  /** Joining the pieces with single spaces gives the line back, except that a space the
      line ends with is lost when it was a break; a line that does not end with a space is
      recovered exactly. */
  lemma {:induction false} SegmentsRoundTrip(line: string)
    ensures var j := JavaText.Join(Segments(line), " ");
            line == j || line == j + " "
    ensures line == [] || line[|line| - 1] != ' ' ==> line == JavaText.Join(Segments(line), " ")
    decreases |line|
  {
    var sp := SpaceFrom(line, MaxWidth);
    if |line| > MaxWidth && sp.Some? {
      var i := sp.value;
      var seg := line[..i];
      var rest := line[i + 1..];
      SegmentsRoundTrip(rest);
      assert line == seg + " " + rest;
      assert Segments(line) == [seg] + Segments(rest);
      RoundTripStep(seg, rest, Segments(rest));
    }
  }

  /** One break of the round trip: a piece, the dropped space, and a rest that its own
      pieces give back. */
  lemma RoundTripStep(seg: string, rest: string, ps: seq<string>)
    requires ps == [] <==> rest == []
    requires rest == JavaText.Join(ps, " ") || rest == JavaText.Join(ps, " ") + " "
    requires rest == [] || rest[|rest| - 1] != ' ' ==> rest == JavaText.Join(ps, " ")
    ensures var line := seg + " " + rest;
            var j := JavaText.Join([seg] + ps, " ");
            && (line == j || line == j + " ")
            && (line[|line| - 1] != ' ' ==> line == j)
  {
    var jr := JavaText.Join(ps, " ");
    JoinCons(seg, ps, " ");
    if rest != [] {
      assert (seg + " " + rest)[|seg + " " + rest| - 1] == rest[|rest| - 1];
      assert seg + " " + (jr + " ") == seg + " " + jr + " ";
    }
  }

  /** A join with a piece in front. */
  lemma JoinCons(a: string, rest: seq<string>, sep: string)
    ensures JavaText.Join([a] + rest, sep) == if rest == [] then a else a + sep + JavaText.Join(rest, sep)
  {
    if rest != [] {
      assert ([a] + rest)[1..] == rest;
    }
  }

  /** The wrapped text is the pieces joined by `<br/>`, the line is the same pieces joined
      by single spaces (up to a trailing break space), and a line no longer than the width
      comes back as it is. */
  lemma WrapLineRoundTrip(line: string)
    ensures var s := Segments(line);
            && WrapLine(line) == JavaText.Join(s, Break)
            && (line == JavaText.Join(s, " ") || line == JavaText.Join(s, " ") + " ")
  {
    SegmentsRoundTrip(line);
  }

  /** The loop of `wrapLine`: append the text before each break, then the remainder. */
  method WrapLineLoop(line0: string) returns (wrapped: string)
    ensures wrapped == WrapLine(line0)
  {
    wrapped := "";
    var line := line0;
    var delim := "";
    ghost var done: seq<string> := [];
    while |line| > MaxWidth
      invariant Segments(line0) == done + Segments(line)
      invariant wrapped == JavaText.Join(done, Break)
      invariant delim == if done == [] then "" else Break
      decreases |line|
    {
      var spaceIdx := SpaceFrom(line, MaxWidth);
      if spaceIdx.None? {
        break;
      }
      var i := spaceIdx.value;
      if done != [] {
        JavaText.JoinAppend(done, line[..i], Break);
      }
      wrapped := wrapped + delim + line[..i];
      assert Segments(line) == [line[..i]] + Segments(line[i + 1..]);
      done := done + [line[..i]];
      line := line[i + 1..];
      delim := Break;
    }
    if line != [] {
      assert Segments(line) == [line];
      if done != [] {
        JavaText.JoinAppend(done, line, Break);
      }
      wrapped := wrapped + delim + line;
    } else {
      assert done + [] == done;
    }
  }

  /** `exceptionMessage(e)`: the class name alone when there is no message, otherwise the
      wrapped `name: message`. */
  function ExceptionMessage(name: string, message: Option<string>): (r: string)
    ensures message.None? ==> r == name
    ensures message.Some? && |name| + 2 + |message.value| <= MaxWidth ==> r == name + ": " + message.value
  {
    match message
    case None => name
    case Some(m) => WrapLine(name + ": " + m)
  }
}
