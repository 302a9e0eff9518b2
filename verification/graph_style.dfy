/** `GraphColour`, `LineStyle` and `LineType`: the look of one plotted line, and the hex
    colour text GnuPlot is given for it. */
module GraphStyle {
  import opened Wrappers
  import JavaText

  // ---------------------------------------------------------------------------
  // Colours
  // ---------------------------------------------------------------------------

  /** The palette: seven hues, each at full strength, 80% and 50%. */
  datatype GraphColour =
    | Green | Green80 | Green50
    | Yellow | Yellow80 | Yellow50
    | Red | Red80 | Red50
    | Stone | Stone80 | Stone50
    | Blue | Blue80 | Blue50
    | Mint | Mint80 | Mint50
    | Grey | Grey80 | Grey50

  /** An sRGB triple, each component in 0..255. */
  datatype Rgb = Rgb(red: int, green: int, blue: int)

  predicate IsComponent(x: int) { 0 <= x < 256 }

  /** The colour's display name, which is also its `toString`. */
  function DisplayName(c: GraphColour): string {
    match c
    case Green => "Green"
    case Green80 => "80% Green"
    case Green50 => "50% Green"
    case Yellow => "Yellow"
    case Yellow80 => "80% Yellow"
    case Yellow50 => "50% Yellow"
    case Red => "Red"
    case Red80 => "80% Red"
    case Red50 => "50% Red"
    case Stone => "Stone"
    case Stone80 => "80% Stone"
    case Stone50 => "50% Stone"
    case Blue => "Blue"
    case Blue80 => "80% Blue"
    case Blue50 => "50% Blue"
    case Mint => "Mint"
    case Mint80 => "80% Mint"
    case Mint50 => "50% Mint"
    case Grey => "Grey"
    case Grey80 => "80% Grey"
    case Grey50 => "50% Grey"
  }

  /** The `java.awt.Color` each constant is built with. */
  function ColourRgb(c: GraphColour): (v: Rgb)
    ensures IsComponent(v.red) && IsComponent(v.green) && IsComponent(v.blue)
  {
    match c
    case Green => Rgb(0, 116, 123)
    case Green80 => Rgb(51, 144, 149)
    case Green50 => Rgb(128, 185, 189)
    case Yellow => Rgb(255, 199, 88)
    case Yellow80 => Rgb(255, 210, 122)
    case Yellow50 => Rgb(255, 227, 172)
    case Red => Rgb(239, 67, 56)
    case Red80 => Rgb(243, 104, 96)
    case Red50 => Rgb(247, 160, 155)
    case Stone => Rgb(166, 148, 92)
    case Stone80 => Rgb(184, 170, 125)
    case Stone50 => Rgb(211, 201, 173)
    case Blue => Rgb(97, 155, 211)
    case Blue80 => Rgb(129, 175, 220)
    case Blue50 => Rgb(175, 205, 233)
    case Mint => Rgb(77, 196, 207)
    case Mint80 => Rgb(113, 207, 217)
    case Mint50 => Rgb(166, 225, 231)
    case Grey => Rgb(165, 169, 172)
    case Grey80 => Rgb(183, 186, 189)
    case Grey50 => Rgb(210, 212, 213)
  }

  /** The 24-bit packed value `0xRRGGBB`. */
  function Packed(v: Rgb): int {
    v.red * 0x1_0000 + v.green * 0x100 + v.blue
  }

  /** No two colours of the palette share an RGB value, so no two share a hex code. */
  lemma ColoursDistinct(a: GraphColour, b: GraphColour)
    requires a != b
    ensures Packed(ColourRgb(a)) != Packed(ColourRgb(b))
  {
  }

  // ---------------------------------------------------------------------------
  // Hex text of a colour
  // ---------------------------------------------------------------------------

  /** A lower-case hex digit, as `Integer.toHexString` writes it. */
  function HexDigit(d: int): (c: char)
    requires 0 <= d < 16
  {
    if d < 10 then ('0' as int + d) as char else ('a' as int + d - 10) as char
  }

  /** `Integer.toHexString` of a non-negative value: hex digits without leading zeros. */
  function ToHexString(n: nat): (r: string)
    ensures |r| >= 1
    ensures n >= 16 ==> |r| >= 2
    decreases n
  {
    if n < 16 then [HexDigit(n)] else ToHexString(n / 16) + [HexDigit(n % 16)]
  }

  /** Two digits of a component, high digit first. */
  function Hex2(x: int): string
    requires IsComponent(x)
  {
    [HexDigit(x / 16), HexDigit(x % 16)]
  }

  /** The six hex digits of an RGB value. `Color.getRGB()` puts the opaque alpha `0xFF`
      above the packed RGB; `Integer.toHexString` reads those bits unsigned, and the text is
      upper-cased and loses its first two (alpha) characters. */
  function RgbHex(v: Rgb): (r: string)
    requires IsComponent(v.red) && IsComponent(v.green) && IsComponent(v.blue)
  {
    JavaText.ToUpper(ToHexString(0xFF00_0000 + Packed(v)))[2..]
  }

  /** The six hex digits of a colour. */
  function ColourHex(c: GraphColour): (r: string)
  {
    RgbHex(ColourRgb(c))
  }

  /** `lineColourCommand(colour)`. */
  function LineColourCommand(c: GraphColour): (r: string)
    ensures JavaText.StartsWith(r, " lc rgb '#") && JavaText.EndsWith(r, "'")
  {
    " lc rgb '#" + ColourHex(c) + "'"
  }

  /** Because the alpha byte is `FF`, the hex text always has eight digits, and its low six
      are the components two by two. */
  lemma ArgbText(r: int, g: int, b: int)
    requires IsComponent(r) && IsComponent(g) && IsComponent(b)
    ensures ToHexString(0xFF00_0000 + r * 0x1_0000 + g * 0x100 + b) == "ff" + Hex2(r) + Hex2(g) + Hex2(b)
  {
    ArgbBytes(r, g, b);
    ArgbValue(r, g, b);
  }

  /** The ARGB value byte by byte. */
  lemma ArgbValue(r: int, g: int, b: int)
    requires IsComponent(r) && IsComponent(g) && IsComponent(b)
    ensures ToHexString(((0xFF * 256 + r) * 256 + g) * 256 + b) == ToHexString(0xFF00_0000 + r * 0x1_0000 + g * 0x100 + b)
  {
    assert ((0xFF * 256 + r) * 256 + g) * 256 + b == 0xFF00_0000 + r * 0x1_0000 + g * 0x100 + b;
  }

  /** The alpha byte and then the three component bytes. */
  lemma ArgbBytes(r: int, g: int, b: int)
    requires IsComponent(r) && IsComponent(g) && IsComponent(b)
    ensures ToHexString(((0xFF * 256 + r) * 256 + g) * 256 + b) == "ff" + Hex2(r) + Hex2(g) + Hex2(b)
  {
    var alpha := ToHexString(0xFF);
    AlphaText();
    HexAppendBytes(0xFF, r, g, b);
    assert ToHexString(((0xFF * 256 + r) * 256 + g) * 256 + b) == alpha + Hex2(r) + Hex2(g) + Hex2(b);
  }

  /** The opaque alpha byte prints as `ff`. */
  lemma AlphaText()
    ensures ToHexString(0xFF) == "ff"
  {
    assert 0xFF / 16 == 15 && 0xFF % 16 == 15;
  }

  /** Three bytes more. */
  lemma HexAppendBytes(n: nat, x: int, y: int, z: int)
    requires n >= 1 && IsComponent(x) && IsComponent(y) && IsComponent(z)
    ensures ToHexString(((n * 256 + x) * 256 + y) * 256 + z) == ToHexString(n) + Hex2(x) + Hex2(y) + Hex2(z)
  {
    HexAppendByte(n, x);
    HexAppendByte(n * 256 + x, y);
    HexAppendByte((n * 256 + x) * 256 + y, z);
  }

  /** A byte more: the text of `n * 256 + x` is the text of `n` and then the two digits of
      `x`. */
  lemma HexAppendByte(n: nat, x: int)
    requires n >= 1 && IsComponent(x)
    ensures ToHexString(n * 256 + x) == ToHexString(n) + Hex2(x)
  {
    var m := n * 256 + x;
    var q := n * 16 + x / 16;
    assert m / 16 == q && m % 16 == x % 16;
    assert q / 16 == n && q % 16 == x / 16;
    HexAppend(q, n, x / 16, ToHexString(n));
    HexAppend(m, q, x % 16, ToHexString(n) + [HexDigit(x / 16)]);
  }

  /** One more digit: the text of `n` is the text of `n / 16` and then the last digit. */
  lemma HexAppend(n: nat, q: nat, d: int, t: string)
    requires n >= 16 && n / 16 == q && n % 16 == d && ToHexString(q) == t
    ensures ToHexString(n) == t + [HexDigit(d)]
  {
  }

  /** An upper-case hex digit. */
  predicate IsUpperHex(ch: char) { '0' <= ch <= '9' || 'A' <= ch <= 'F' }

  function UpperHexValue(ch: char): (d: nat)
    requires IsUpperHex(ch)
    ensures d < 16
  {
    if ch <= '9' then ch as int - '0' as int else ch as int - 'A' as int + 10
  }

  /** The value of a string of upper-case hex digits, read most significant first. */
  function HexValue(s: string): nat
    requires forall i :: 0 <= i < |s| ==> IsUpperHex(s[i])
  {
    if s == [] then 0 else HexValue(s[..|s| - 1]) * 16 + UpperHexValue(s[|s| - 1])
  }

  /** Upper-casing a digit gives an upper-case hex digit of the same value. */
  lemma UpperDigit(d: int)
    requires 0 <= d < 16
    ensures IsUpperHex(JavaText.ToUpperChar(HexDigit(d)))
    ensures UpperHexValue(JavaText.ToUpperChar(HexDigit(d))) == d
  {
  }

  /** The hex text of an RGB value is six upper-case hex digits whose value is the packed
      RGB. */
  lemma RgbHexValue(v: Rgb)
    requires IsComponent(v.red) && IsComponent(v.green) && IsComponent(v.blue)
    ensures |RgbHex(v)| == 6
    ensures forall i :: 0 <= i < 6 ==> IsUpperHex(RgbHex(v)[i])
    ensures HexValue(RgbHex(v)) == Packed(v)
  {
    var r, g, b := v.red, v.green, v.blue;
    ArgbText(r, g, b);
    var ds := [r / 16, r % 16, g / 16, g % 16, b / 16, b % 16];
    UpperTail(r, g, b, ds);
    HexValueSix(RgbHex(v), ds);
  }

  /** Upper-casing the eight-digit text and dropping the alpha leaves the six component
      digits, each an upper-case hex digit of the right value. */
  lemma UpperTail(r: int, g: int, b: int, ds: seq<int>)
    requires IsComponent(r) && IsComponent(g) && IsComponent(b)
    requires ds == [r / 16, r % 16, g / 16, g % 16, b / 16, b % 16]
    ensures |JavaText.ToUpper("ff" + Hex2(r) + Hex2(g) + Hex2(b))[2..]| == 6
    ensures forall i :: 0 <= i < 6 ==>
      IsUpperHex(JavaText.ToUpper("ff" + Hex2(r) + Hex2(g) + Hex2(b))[2..][i])
      && UpperHexValue(JavaText.ToUpper("ff" + Hex2(r) + Hex2(g) + Hex2(b))[2..][i]) == ds[i]
  {
    var t := "ff" + Hex2(r) + Hex2(g) + Hex2(b);
    var h := JavaText.ToUpper(t)[2..];
    forall i | 0 <= i < 6
      ensures IsUpperHex(h[i]) && UpperHexValue(h[i]) == ds[i]
    {
      assert h[i] == JavaText.ToUpperChar(t[i + 2]);
      assert t[i + 2] == HexDigit(ds[i]);
      UpperDigit(ds[i]);
    }
  }

  /** The value of six upper-case hex digits, read two by two. */
  lemma HexValueSix(h: string, ds: seq<int>)
    requires |h| == 6 && |ds| == 6
    requires forall i :: 0 <= i < 6 ==> IsUpperHex(h[i]) && UpperHexValue(h[i]) == ds[i]
    ensures HexValue(h) == (ds[0] * 16 + ds[1]) * 0x1_0000 + (ds[2] * 16 + ds[3]) * 0x100 + ds[4] * 16 + ds[5]
  {
    assert h[..1][..0] == [];
    assert h[..2][..1] == h[..1];
    assert h[..3][..2] == h[..2];
    assert h[..4][..3] == h[..3];
    assert h[..5][..4] == h[..4];
    assert h[..6][..5] == h[..5];
    assert HexValue(h[..1]) == ds[0];
    assert HexValue(h[..2]) == ds[0] * 16 + ds[1];
    assert HexValue(h[..3]) == (ds[0] * 16 + ds[1]) * 16 + ds[2];
    assert HexValue(h[..4]) == (ds[0] * 16 + ds[1]) * 0x100 + ds[2] * 16 + ds[3];
    assert HexValue(h[..5]) == ((ds[0] * 16 + ds[1]) * 0x100 + ds[2] * 16 + ds[3]) * 16 + ds[4];
    assert h[..6] == h;
  }

  /** The colour text is six upper-case hex digits whose value is the colour's packed RGB,
      so reading it back recovers the colour. */
  lemma ColourHexValue(c: GraphColour)
    ensures |ColourHex(c)| == 6
    ensures forall i :: 0 <= i < 6 ==> IsUpperHex(ColourHex(c)[i])
    ensures HexValue(ColourHex(c)) == Packed(ColourRgb(c))
  {
    RgbHexValue(ColourRgb(c));
  }

  /** The text between a fixed prefix and suffix is determined by the whole. */
  lemma MiddleDetermined(p: string, x: string, y: string, q: string)
    requires |x| == |y| && p + x + q == p + y + q
    ensures x == y
  {
    assert x == (p + x + q)[|p|..|p| + |x|];
    assert y == (p + y + q)[|p|..|p| + |y|];
  }

  /** A colour command is 17 characters long. */
  lemma ColourCommandLength(c: GraphColour)
    ensures |LineColourCommand(c)| == 17
  {
    ColourHexValue(c);
  }

  /** Distinct colours are written with distinct colour commands. */
  lemma LineColourCommandInjective(a: GraphColour, b: GraphColour)
    requires a != b
    ensures LineColourCommand(a) != LineColourCommand(b)
  {
    ColourHexValue(a);
    ColourHexValue(b);
    ColoursDistinct(a, b);
    if LineColourCommand(a) == LineColourCommand(b) {
      MiddleDetermined(" lc rgb '#", ColourHex(a), ColourHex(b), "'");
    }
  }

  // ---------------------------------------------------------------------------
  // Line styles and line types
  // ---------------------------------------------------------------------------

  /** The styles a line may be drawn in. */
  datatype LineStyle = Bars | Dots | Impulses | Line | LineAndPoints | Points | Steps

  const DefaultStyle: LineStyle := Points
  const DefaultColour: GraphColour := Green
  const DefaultWidth: int := 1

  /** A line's style, colour and width. */
  datatype LineType = LineType(style: LineStyle, colour: GraphColour, width: int)

  /** `new LineType()`: the default style, colour and width. */
  function NewLineType(): (l: LineType)
    ensures l.style == Points && l.colour == Green && l.width == 1
  {
    LineType(DefaultStyle, DefaultColour, DefaultWidth)
  }

  /** `copy()`: a line type equal to this one. Being a value, it is also independent of it. */
  function Copy(l: LineType): (r: LineType)
    ensures Equals(r, l) && Equals(l, r)
  {
    LineType(l.style, l.colour, l.width)
  }

  /** `setColour(colour)`: a `null` colour throws and leaves the line type as it was. */
  function SetColour(l: LineType, colour: Option<GraphColour>): (r: Result<LineType>)
    ensures r.Success? <==> colour.Some?
    ensures r.Success? ==> r.value.colour == colour.value && r.value.style == l.style && r.value.width == l.width
  {
    if colour.None? then Failure("NullPointerException") else Success(l.(colour := colour.value))
  }

  /** `setStyle(style)`: only the style changes. */
  function SetStyle(l: LineType, style: LineStyle): (r: LineType)
    ensures r.style == style && r.colour == l.colour && r.width == l.width
  {
    l.(style := style)
  }

  /** `setWidth(width)`: only the width changes. */
  function SetWidth(l: LineType, width: int): (r: LineType)
    ensures r.width == width && r.style == l.style && r.colour == l.colour
  {
    l.(width := width)
  }

  /** `equals`, comparing widths by value: two line types are equal exactly when their
      style, colour and width agree. */
  predicate Equals(a: LineType, b: LineType) {
    a.style == b.style && a.colour == b.colour && a.width == b.width
  }

  /** `equals` is value equality on the model. */
  lemma EqualsIsIdentity(a: LineType, b: LineType)
    ensures Equals(a, b) <==> a == b
  {
  }

  /** `hashCode`: `3`, then `37 * hash + h` over the style's hash, the colour's hash and the
      width, in 32-bit arithmetic. Enum hash codes are identity hashes, so they are
      parameters. */
  function HashCode(l: LineType, styleHash: LineStyle -> int, colourHash: GraphColour -> int): (h: int)
    ensures JavaText.IsInt32(h)
  {
    var h1 := JavaText.Wrap32(37 * 3 + JavaText.Wrap32(styleHash(l.style)));
    var h2 := JavaText.Wrap32(37 * h1 + JavaText.Wrap32(colourHash(l.colour)));
    JavaText.Wrap32(37 * h2 + JavaText.Wrap32(l.width))
  }

  /** Equal line types have equal hash codes, whatever the enum hashes are. */
  lemma HashCodeConsistent(a: LineType, b: LineType, styleHash: LineStyle -> int, colourHash: GraphColour -> int)
    requires Equals(a, b)
    ensures HashCode(a, styleHash, colourHash) == HashCode(b, styleHash, colourHash)
  {
  }

  /** The hash code reads the width: two line types differing only by a width step of one
      have different hash codes. */
  lemma HashCodeReadsWidth(l: LineType, styleHash: LineStyle -> int, colourHash: GraphColour -> int)
    requires JavaText.IsInt32(l.width) && l.width < JavaText.IntMax
    ensures HashCode(l, styleHash, colourHash) != HashCode(SetWidth(l, l.width + 1), styleHash, colourHash)
  {
    var h1 := JavaText.Wrap32(37 * 3 + JavaText.Wrap32(styleHash(l.style)));
    var h2 := JavaText.Wrap32(37 * h1 + JavaText.Wrap32(colourHash(l.colour)));
    JavaText.Wrap32Successor(37 * h2 + l.width);
  }

  /** The setters act on one field each: setting the colour a line type already has
      changes nothing, the last colour set wins, setters of different fields commute, and
      a line type whose colour was set equals the original exactly when the colour was
      already its own. */
  lemma SetterLaws(l: LineType, c1: GraphColour, c2: GraphColour, style: LineStyle, width: int)
    ensures SetColour(l, Some(l.colour)) == Success(l)
    ensures SetColour(SetColour(l, Some(c1)).value, Some(c2)) == SetColour(l, Some(c2))
    ensures SetStyle(SetColour(l, Some(c1)).value, style) == SetColour(SetStyle(l, style), Some(c1)).value
    ensures SetWidth(SetColour(l, Some(c1)).value, width) == SetColour(SetWidth(l, width), Some(c1)).value
    ensures Equals(SetColour(l, Some(c1)).value, l) <==> c1 == l.colour
  {
  }

  /** A copy hashes as the original does, and setting the copy's colour leaves the
      original's equality and hash untouched. */
  lemma CopyIndependent(l: LineType, c: GraphColour, styleHash: LineStyle -> int, colourHash: GraphColour -> int)
    ensures HashCode(Copy(l), styleHash, colourHash) == HashCode(l, styleHash, colourHash)
    ensures SetColour(Copy(l), Some(c)) == SetColour(l, Some(c))
    ensures c != l.colour ==> !Equals(SetColour(Copy(l), Some(c)).value, l)
  {
  }
}
