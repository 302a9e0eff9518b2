/** The GnuPlot side of plotting: `GnuPlotAxis`, which holds one axis's state and writes its
    commands, and the shared part of `CommandFileWriter`, which copies the graph
    configuration into the axes and writes the axis and line-style commands. The command
    text goes to a stream in the source; here it is returned. */
module GnuPlot {
  import opened Wrappers
  import JavaText
  import JavaNumber
  import Collections
  import StringUtils
  import GraphStyle
  import GraphConfig

  // ---------------------------------------------------------------------------
  // GnuPlotAxis
  // ---------------------------------------------------------------------------

  /** One axis. `name` is the axis name as it prints in a command. */
  datatype Axis = Axis(
    name: string,
    logScale: int,
    axisLabel: Option<string>,
    minValue: Option<JavaNumber.Dbl>,
    maxValue: Option<JavaNumber.Dbl>)

  /** `new GnuPlotAxis(name)`: linear, with no label and no bounds. */
  function NewAxis(name: string): (a: Axis)
    ensures a.name == name && a.logScale == 0
    ensures a.axisLabel == None && a.minValue == None && a.maxValue == None
  {
    Axis(name, 0, None, None, None)
  }

  /** `setLogScale(n)`: a log scale of 1 is refused; anything else is stored. */
  function SetLogScale(a: Axis, n: int): (r: Result<Axis>)
    ensures r.Success? <==> n != 1
    ensures r.Success? ==> r.value.logScale == n && r.value == a.(logScale := n)
  {
    if n == 1 then Failure("IllegalArgumentException") else Success(a.(logScale := n))
  }

  /** `logscaleCommandString()`: sets the log scale when it is positive, else unsets it. */
  function LogscaleCommand(a: Axis): (r: string)
    ensures a.logScale > 0 ==> JavaText.StartsWith(r, "set logscale " + a.name + " ")
    ensures a.logScale <= 0 ==> r == "unset logscale " + a.name + "\n"
  {
    if a.logScale > 0 then "set logscale " + a.name + " " + JavaText.IntToString(a.logScale) + "\n"
    else "unset logscale " + a.name + "\n"
  }

  /** The scale set by a log-scale command can be read back from it. */
  lemma LogscaleCommandScale(a: Axis)
    requires a.logScale > 0 && JavaText.IsInt32(a.logScale)
    ensures var r := LogscaleCommand(a);
            var p := |"set logscale " + a.name + " "|;
            p < |r| && JavaText.ParseInt(r[p..|r| - 1]) == Some(a.logScale)
  {
    var r := LogscaleCommand(a);
    var p := |"set logscale " + a.name + " "|;
    assert r[p..|r| - 1] == JavaText.IntToString(a.logScale);
    JavaText.ParseIntToString(a.logScale);
  }

  /** `labelCommandString()`: nothing without a label, else the label with its words
      capitalised, in quotes. */
  function LabelCommand(a: Axis): (r: string)
    ensures a.axisLabel.None? <==> r == []
    ensures a.axisLabel.Some? ==> JavaText.StartsWith(r, "set " + a.name + "label \"")
  {
    if a.axisLabel.Some? then "set " + a.name + "label \"" + StringUtils.CapitaliseWords(a.axisLabel.value) + "\"\n"
    else ""
  }

  /** Capitalising a label before setting it changes nothing in the command. */
  lemma LabelCommandCapitalised(a: Axis, text: string)
    ensures LabelCommand(a.(axisLabel := Some(StringUtils.CapitaliseWords(text)))) == LabelCommand(a.(axisLabel := Some(text)))
  {
    StringUtils.CapitaliseWordsIdempotent(text);
  }

  /** A bound as it prints inside a range: empty when `null`. */
  function BoundText(b: Option<JavaNumber.Dbl>, showDouble: JavaNumber.Dbl -> string): (r: string)
    ensures b.None? ==> r == []
  {
    if b.Some? then showDouble(b.value) else ""
  }

  /** `rangeCommandString()`: autoscaling when neither bound is set, else the range with
      an empty side for a missing bound. `showDouble` is `Double.toString`. */
  function RangeCommand(a: Axis, showDouble: JavaNumber.Dbl -> string): (r: string)
    ensures a.minValue.None? && a.maxValue.None? ==> r == "set autoscale " + a.name + "fixmax\n"
    ensures a.minValue.Some? || a.maxValue.Some? ==>
              JavaText.StartsWith(r, "set " + a.name + "range [") && JavaText.EndsWith(r, "]\n")
  {
    if a.minValue.None? && a.maxValue.None? then "set autoscale " + a.name + "fixmax\n"
    else "set " + a.name + "range [" + BoundText(a.minValue, showDouble) + ":" + BoundText(a.maxValue, showDouble) + "]\n"
  }

  /** With one bound missing, the range text is that bound's side left empty. */
  lemma RangeOneSided(a: Axis, showDouble: JavaNumber.Dbl -> string)
    requires a.minValue.Some? && a.maxValue.None?
    ensures RangeCommand(a, showDouble) == "set " + a.name + "range [" + showDouble(a.minValue.value) + ":]\n"
  {
  }

  /** `ticsCommandString()`: not implemented; it always throws. */
  function TicsCommand(a: Axis): (r: Result<string>)
    ensures r.Failure?
  {
    Failure("UnsupportedOperationException")
  }

  // ---------------------------------------------------------------------------
  // CommandFileWriter: axes
  // ---------------------------------------------------------------------------

  /** The writer's four axes. */
  datatype Writer = Writer(x1: Axis, x2: Axis, y1: Axis, y2: Axis)

  /** The log scale an axis gets from the configuration's flag. */
  function LogScaleOf(log: bool): int {
    if log then 2 else 0
  }

  /** Copies one configuration axis into a GnuPlot axis. A flag gives a scale of 2 or 0,
      which `setLogScale` never refuses. */
  function UpdateAxis(a: Axis, c: GraphConfig.Config, n: GraphConfig.AxisName): (r: Axis)
    requires GraphConfig.Valid(c)
    ensures r.logScale == LogScaleOf(GraphConfig.GetAxisLog(c, n))
    ensures r.minValue == GraphConfig.GetAxisMinimum(c, n) && r.maxValue == GraphConfig.GetAxisMaximum(c, n)
    ensures r.name == a.name && r.axisLabel == a.axisLabel
  {
    var scaled := SetLogScale(a, LogScaleOf(GraphConfig.GetAxisLog(c, n)));
    scaled.value.(minValue := GraphConfig.GetAxisMinimum(c, n), maxValue := GraphConfig.GetAxisMaximum(c, n))
  }

  /** `updateGnuPlotAxes(config)`: X1 and Y1 take their log flag, minimum and maximum from
      the configuration; X2 and Y2 are untouched. */
  function UpdateAxes(w: Writer, c: GraphConfig.Config): (r: Writer)
    requires GraphConfig.Valid(c)
    ensures r.x2 == w.x2 && r.y2 == w.y2
    ensures r.x1 == UpdateAxis(w.x1, c, GraphConfig.X1) && r.y1 == UpdateAxis(w.y1, c, GraphConfig.Y1)
  {
    w.(x1 := UpdateAxis(w.x1, c, GraphConfig.X1), y1 := UpdateAxis(w.y1, c, GraphConfig.Y1))
  }

  /** After the update, X1's log-scale command sets a scale of 2 exactly when the
      configuration marks X1 logarithmic, and its range autoscales exactly when the
      configuration gives X1 no bounds. */
  lemma UpdatedCommandsFollowConfig(w: Writer, c: GraphConfig.Config, showDouble: JavaNumber.Dbl -> string)
    requires GraphConfig.Valid(c)
    ensures var x1 := UpdateAxes(w, c).x1;
            LogscaleCommand(x1) == (if GraphConfig.GetAxisLog(c, GraphConfig.X1)
                                    then "set logscale " + w.x1.name + " 2\n"
                                    else "unset logscale " + w.x1.name + "\n")
    ensures var x1 := UpdateAxes(w, c).x1;
            (RangeCommand(x1, showDouble) == "set autoscale " + w.x1.name + "fixmax\n")
            <== (GraphConfig.GetAxisMinimum(c, GraphConfig.X1).None? && GraphConfig.GetAxisMaximum(c, GraphConfig.X1).None?)
  {
    assert JavaText.IntToString(2) == "2";
  }

  /** What a plotted data set contributes to the labels: the display names of its axes. */
  datatype Plottable = Plottable(xDisplayName: string, yDisplayName: string)

  /** The renamed label of each plottable's x axis, `null` for a label the configuration
      does not hold. */
  function XLabels(ps: seq<Plottable>, c: GraphConfig.Config): (r: seq<Option<string>>)
    ensures |r| == |ps|
    ensures forall i :: 0 <= i < |ps| ==> r[i] == GraphConfig.GetGraphLabel(c, ps[i].xDisplayName)
  {
    if ps == [] then [] else [GraphConfig.GetGraphLabel(c, ps[0].xDisplayName)] + XLabels(ps[1..], c)
  }

  /** The same for the y axes. */
  function YLabels(ps: seq<Plottable>, c: GraphConfig.Config): (r: seq<Option<string>>)
    ensures |r| == |ps|
    ensures forall i :: 0 <= i < |ps| ==> r[i] == GraphConfig.GetGraphLabel(c, ps[i].yDisplayName)
  {
    if ps == [] then [] else [GraphConfig.GetGraphLabel(c, ps[0].yDisplayName)] + YLabels(ps[1..], c)
  }

  /** Labels as a string builder appends them: `null` as `"null"`. */
  function Texts(ls: seq<Option<string>>): (r: seq<string>)
    ensures |r| == |ls|
    ensures forall i :: 0 <= i < |ls| ==> r[i] == JavaText.NullText(ls[i])
  {
    if ls == [] then [] else [JavaText.NullText(ls[0])] + Texts(ls[1..])
  }

  /** The label of an axis: `"Log Of "` on a logarithmic axis, then the distinct labels in
      first-seen order joined with `", "`. */
  function AxisLabel(a: Axis, labels: seq<Option<string>>): (r: string)
    ensures a.logScale == 0 ==> r == JavaText.Join(Texts(Collections.Dedup(labels)), ", ")
    ensures a.logScale != 0 ==> r == "Log Of " + JavaText.Join(Texts(Collections.Dedup(labels)), ", ")
  {
    (if a.logScale == 0 then "" else "Log Of ") + JavaText.Join(Texts(Collections.Dedup(labels)), ", ")
  }

  /** `updateGnuPlotAxesLabels(plottables, config)`: X1 and Y1 are labelled with the renamed
      axis labels of the plottables; X2 and Y2 are untouched. */
  function UpdateAxesLabels(w: Writer, ps: seq<Plottable>, c: GraphConfig.Config): (r: Writer)
    ensures r.x2 == w.x2 && r.y2 == w.y2
    ensures r.x1 == w.x1.(axisLabel := Some(AxisLabel(w.x1, XLabels(ps, c))))
    ensures r.y1 == w.y1.(axisLabel := Some(AxisLabel(w.y1, YLabels(ps, c))))
  {
    w.(x1 := w.x1.(axisLabel := Some(AxisLabel(w.x1, XLabels(ps, c)))),
       y1 := w.y1.(axisLabel := Some(AxisLabel(w.y1, YLabels(ps, c)))))
  }

  /** Plottables that share one x axis give it a single label, however many there are. */
  lemma SharedAxisLabelledOnce(w: Writer, ps: seq<Plottable>, c: GraphConfig.Config)
    requires ps != [] && forall i :: 0 <= i < |ps| ==> ps[i].xDisplayName == ps[0].xDisplayName
    requires w.x1.logScale == 0
    ensures UpdateAxesLabels(w, ps, c).x1.axisLabel
            == Some(JavaText.NullText(GraphConfig.GetGraphLabel(c, ps[0].xDisplayName)))
  {
    var ls := XLabels(ps, c);
    var d := Collections.Dedup(ls);
    var l := GraphConfig.GetGraphLabel(c, ps[0].xDisplayName);
    assert ls[0] == l;
    Collections.DedupConstant(ls, l);
  }

  /** The commands of one kind for every axis, in the order X1, X2, Y1, Y2. */
  function LabelCommands(w: Writer): string {
    LabelCommand(w.x1) + LabelCommand(w.x2) + LabelCommand(w.y1) + LabelCommand(w.y2)
  }

  function LogscaleCommands(w: Writer): string {
    LogscaleCommand(w.x1) + LogscaleCommand(w.x2) + LogscaleCommand(w.y1) + LogscaleCommand(w.y2)
  }

  function RangeCommands(w: Writer, showDouble: JavaNumber.Dbl -> string): string {
    RangeCommand(w.x1, showDouble) + RangeCommand(w.x2, showDouble)
    + RangeCommand(w.y1, showDouble) + RangeCommand(w.y2, showDouble)
  }

  /** `writeAxesCommands(out)`: the four label commands, then the four log-scale commands,
      then the four ranges, each group in the order X1, X2, Y1, Y2. */
  function AxesCommands(w: Writer, showDouble: JavaNumber.Dbl -> string): string {
    LabelCommands(w) + LogscaleCommands(w) + RangeCommands(w, showDouble)
  }

  /** Axes fresh from their constructor write no labels: the commands are four unset log
      scales followed by four autoscales. */
  lemma FreshAxesCommands(x1: string, x2: string, y1: string, y2: string, showDouble: JavaNumber.Dbl -> string)
    ensures var w := Writer(NewAxis(x1), NewAxis(x2), NewAxis(y1), NewAxis(y2));
            AxesCommands(w, showDouble)
            == ("unset logscale " + x1 + "\n") + ("unset logscale " + x2 + "\n")
               + ("unset logscale " + y1 + "\n") + ("unset logscale " + y2 + "\n")
               + (("set autoscale " + x1 + "fixmax\n") + ("set autoscale " + x2 + "fixmax\n")
                  + ("set autoscale " + y1 + "fixmax\n") + ("set autoscale " + y2 + "fixmax\n"))
  {
    var w := Writer(NewAxis(x1), NewAxis(x2), NewAxis(y1), NewAxis(y2));
    assert LabelCommands(w) == [];
  }

  // ---------------------------------------------------------------------------
  // CommandFileWriter: line styles
  // ---------------------------------------------------------------------------

  /** The GnuPlot keyword of each line style. */
  function Keyword(s: GraphStyle.LineStyle): (r: string)
    ensures r != [] && ' ' !in r
  {
    match s
    case Bars => "boxes"
    case Dots => "dots"
    case Impulses => "impulses"
    case Line => "lines"
    case LineAndPoints => "linespoints"
    case Points => "points"
    case Steps => "steps"
  }

  /** Each style has its own keyword. */
  lemma KeywordInjective(a: GraphStyle.LineStyle, b: GraphStyle.LineStyle)
    requires Keyword(a) == Keyword(b)
    ensures a == b
  {
  }

  /** `lineStyleCommand(lineType)`: the style keyword, the width and the colour. */
  function LineStyleCommand(l: GraphStyle.LineType): (r: string)
    ensures JavaText.StartsWith(r, "with " + Keyword(l.style) + " lw ")
    ensures JavaText.EndsWith(r, GraphStyle.LineColourCommand(l.colour))
  {
    "with " + Keyword(l.style) + " lw " + JavaText.IntToString(l.width) + GraphStyle.LineColourCommand(l.colour)
  }

  /** A word followed by a space is no shorter than a space-free word that begins the same
      text. */
  lemma WordNotShorter(x: string, y: string, p: string, q: string)
    requires ' ' !in y
    requires x + " " + p == y + " " + q
    ensures |x| >= |y|
  {
    if |x| < |y| {
      SpaceAfterWord(x, p);
      assert false;
    }
  }

  /** The character after a word is the space that follows it. */
  lemma SpaceAfterWord(x: string, p: string)
    ensures (x + " " + p)[|x|] == ' '
  {
  }

  /** Two space-free words followed by a space and a tail are equal when the wholes are. */
  lemma FirstWordDetermined(x: string, y: string, p: string, q: string)
    requires ' ' !in x && ' ' !in y
    requires x + " " + p == y + " " + q
    ensures x == y && p == q
  {
    WordNotShorter(x, y, p, q);
    WordNotShorter(y, x, q, p);
    var s := x + " " + p;
    assert x == s[..|x|] && y == (y + " " + q)[..|y|];
    assert p == s[|x| + 1..] && q == (y + " " + q)[|y| + 1..];
  }

  /** Two texts that agree and end in equally long suffixes agree in both parts. */
  lemma SplitBeforeSuffix(x: string, c: string, y: string, d: string)
    requires x + c == y + d && |c| == |d|
    ensures x == y && c == d
  {
    assert x == (x + c)[..|x|];
    assert y == (y + d)[..|y|];
    assert c == (x + c)[|x|..];
    assert d == (y + d)[|y|..];
  }

  /** The parts of a style command after `"with "`: the keyword, a space, and the rest. */
  lemma StyleTextSplit(k: string, w: string, c: string)
    ensures ("with " + k + " lw " + w + c)[5..] == k + " " + ("lw " + w + c)
    ensures ("lw " + w + c)[3..] == w + c
  {
  }

  /** Texts laid out like a style command, with space-free keywords, agree in the keyword
      and in what follows `" lw "` exactly when they are equal. */
  lemma StyleTextDetermined(k1: string, w1: string, c1: string, k2: string, w2: string, c2: string)
    requires ' ' !in k1 && ' ' !in k2
    requires "with " + k1 + " lw " + w1 + c1 == "with " + k2 + " lw " + w2 + c2
    ensures k1 == k2 && w1 + c1 == w2 + c2
  {
    StyleTextSplit(k1, w1, c1);
    StyleTextSplit(k2, w2, c2);
    FirstWordDetermined(k1, k2, "lw " + w1 + c1, "lw " + w2 + c2);
  }

  /** The command identifies the line type: different line types (with widths in the
      `int` range) give different commands. */
  lemma LineStyleCommandInjective(a: GraphStyle.LineType, b: GraphStyle.LineType)
    requires JavaText.IsInt32(a.width) && JavaText.IsInt32(b.width)
    requires LineStyleCommand(a) == LineStyleCommand(b)
    ensures a == b
  {
    var wa, wb := JavaText.IntToString(a.width), JavaText.IntToString(b.width);
    var ca, cb := GraphStyle.LineColourCommand(a.colour), GraphStyle.LineColourCommand(b.colour);
    SameStyle(a, b);
    GraphStyle.ColourCommandLength(a.colour);
    GraphStyle.ColourCommandLength(b.colour);
    SplitBeforeSuffix(wa, ca, wb, cb);
    JavaText.ParseIntToString(a.width);
    JavaText.ParseIntToString(b.width);
    if a.colour != b.colour {
      GraphStyle.LineColourCommandInjective(a.colour, b.colour);
    }
  }

  /** Equal commands have the same keyword, so the same style, and the same text after it. */
  lemma SameStyle(a: GraphStyle.LineType, b: GraphStyle.LineType)
    requires LineStyleCommand(a) == LineStyleCommand(b)
    ensures a.style == b.style
    ensures JavaText.IntToString(a.width) + GraphStyle.LineColourCommand(a.colour)
            == JavaText.IntToString(b.width) + GraphStyle.LineColourCommand(b.colour)
  {
    var wa, wb := JavaText.IntToString(a.width), JavaText.IntToString(b.width);
    var ca, cb := GraphStyle.LineColourCommand(a.colour), GraphStyle.LineColourCommand(b.colour);
    StyleTextDetermined(Keyword(a.style), wa, ca, Keyword(b.style), wb, cb);
    KeywordInjective(a.style, b.style);
  }
}
