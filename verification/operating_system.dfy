/** The operating system a run was made under: a name, a vendor, a four-part version and
    a kernel, every one of which may be null. */
module OperatingSystem {
  import opened Wrappers
  import JavaText
  import MetaData

  datatype OperatingSystem = OperatingSystem(
    name: Option<string>,
    vendor: Option<string>,
    versionMajor: Option<int>,
    versionMinor: Option<int>,
    versionBuild: Option<int>,
    versionBuildMinor: Option<int>,
    kernel: Option<string>)

  const Fields: MetaData.Table := MetaData.OperatingSystemFields

  /** `getData`: the value of the named field; any other name is an
      `IllegalArgumentException`. */
  function GetData(o: OperatingSystem, n: string): (r: Result<Option<MetaData.Datum>>)
    ensures r.Success? <==> n in Fields.names
  {
    if n == "name" then Success(MetaData.TextDatum(o.name))
    else if n == "vendor" then Success(MetaData.TextDatum(o.vendor))
    else if n == "versionMajor" then Success(MetaData.IntDatum(o.versionMajor))
    else if n == "versionMinor" then Success(MetaData.IntDatum(o.versionMinor))
    else if n == "versionBuild" then Success(MetaData.IntDatum(o.versionBuild))
    else if n == "versionBuildMinor" then Success(MetaData.IntDatum(o.versionBuildMinor))
    else if n == "kernel" then Success(MetaData.TextDatum(o.kernel))
    else Failure("Unknown data name " + n)
  }

  /** The value of each field has the class the field table declares. */
  lemma GetDataTyped(o: OperatingSystem, i: nat)
    requires i < |Fields.names|
    ensures GetData(o, Fields.names[i]).Success?
    ensures MetaData.HasClass(GetData(o, Fields.names[i]).value, Fields.classes[i])
  {
  }

  function GetDataMap(o: OperatingSystem): (d: MetaData.DataMap)
    ensures |d| == |Fields.names|
  {
    map["name" := MetaData.TextDatum(o.name),
        "vendor" := MetaData.TextDatum(o.vendor),
        "versionMajor" := MetaData.IntDatum(o.versionMajor),
        "versionMinor" := MetaData.IntDatum(o.versionMinor),
        "versionBuild" := MetaData.IntDatum(o.versionBuild),
        "versionBuildMinor" := MetaData.IntDatum(o.versionBuildMinor),
        "kernel" := MetaData.TextDatum(o.kernel)]
  }

  /** `getDataMap` holds exactly the names `getData` accepts, each with the value
      `getData` returns. */
  lemma GetDataMapAgrees(o: OperatingSystem, n: string)
    ensures n in GetDataMap(o) <==> GetData(o, n).Success?
    ensures n in GetDataMap(o) ==> GetData(o, n) == Success(GetDataMap(o)[n])
  {
  }

  lemma ConformsCasts(d: MetaData.DataMap)
    ensures MetaData.Conforms(d, Fields) <==>
      MetaData.CastText(d, "name").Success? && MetaData.CastText(d, "vendor").Success?
      && MetaData.CastInt(d, "versionMajor").Success?
      && MetaData.CastInt(d, "versionMinor").Success?
      && MetaData.CastInt(d, "versionBuild").Success?
      && MetaData.CastInt(d, "versionBuildMinor").Success?
      && MetaData.CastText(d, "kernel").Success?
  {
    var n := Fields.names;
    assert n[0] == "name" && n[1] == "vendor" && n[2] == "versionMajor";
    assert n[3] == "versionMinor" && n[4] == "versionBuild" && n[5] == "versionBuildMinor";
    assert n[6] == "kernel";
  }

  /** The map constructor: each field is read by its name and cast to its class. */
  function FromMap(d: MetaData.DataMap): (r: Result<OperatingSystem>)
    ensures r.Success? <==> MetaData.Conforms(d, Fields)
  {
    ConformsCasts(d);
    var name :- MetaData.CastText(d, "name");
    var vendor :- MetaData.CastText(d, "vendor");
    var major :- MetaData.CastInt(d, "versionMajor");
    var minor :- MetaData.CastInt(d, "versionMinor");
    var build :- MetaData.CastInt(d, "versionBuild");
    var buildMinor :- MetaData.CastInt(d, "versionBuildMinor");
    var kernel :- MetaData.CastText(d, "kernel");
    Success(OperatingSystem(name, vendor, major, minor, build, buildMinor, kernel))
  }

  lemma DataMapEntries(o: OperatingSystem)
    ensures var d := GetDataMap(o);
      && d["name"] == MetaData.TextDatum(o.name)
      && d["vendor"] == MetaData.TextDatum(o.vendor)
      && d["versionMajor"] == MetaData.IntDatum(o.versionMajor)
      && d["versionMinor"] == MetaData.IntDatum(o.versionMinor)
      && d["versionBuild"] == MetaData.IntDatum(o.versionBuild)
      && d["versionBuildMinor"] == MetaData.IntDatum(o.versionBuildMinor)
      && d["kernel"] == MetaData.TextDatum(o.kernel)
  {
  }

  /** Rebuilding an operating system from its data map gives it back. */
  lemma FromDataMap(o: OperatingSystem)
    ensures FromMap(GetDataMap(o)) == Success(o)
  {
    var d := GetDataMap(o);
    DataMapEntries(o);
    MetaData.CastTextOf(d, "name", o.name);
    MetaData.CastTextOf(d, "vendor", o.vendor);
    MetaData.CastIntOf(d, "versionMajor", o.versionMajor);
    MetaData.CastIntOf(d, "versionMinor", o.versionMinor);
    MetaData.CastIntOf(d, "versionBuild", o.versionBuild);
    MetaData.CastIntOf(d, "versionBuildMinor", o.versionBuildMinor);
    MetaData.CastTextOf(d, "kernel", o.kernel);
  }

  /** `equals`: all seven fields are compared. */
  function Equals(a: OperatingSystem, b: OperatingSystem): (r: bool)
    ensures r <==> a == b
  {
    a.name == b.name && a.vendor == b.vendor && a.versionMajor == b.versionMajor
    && a.versionMinor == b.versionMinor && a.versionBuild == b.versionBuild
    && a.versionBuildMinor == b.versionBuildMinor && a.kernel == b.kernel
  }

  /** `displayName`: `vendor name` (a null shows as "null"), then ` major`, `.minor`,
      `.build`, `-buildMinor` and ` kernel` for each part that is non-null. */
  function DisplayName(o: OperatingSystem): (r: string)
    ensures JavaText.StartsWith(r, JavaText.NullText(o.vendor) + " " + JavaText.NullText(o.name))
  {
    var head := JavaText.NullText(o.vendor) + " " + JavaText.NullText(o.name);
    var r := head + MetaData.IntPart(" ", o.versionMajor, "")
      + MetaData.IntPart(".", o.versionMinor, "") + MetaData.IntPart(".", o.versionBuild, "")
      + MetaData.IntPart("-", o.versionBuildMinor, "") + MetaData.Part(" ", o.kernel);
    assert r[..|head|] == head;
    r
  }

  /** `compareTo`: display names compared ignoring case. */
  function CompareTo(a: OperatingSystem, b: OperatingSystem): (r: int)
    ensures r == 0 <==> JavaText.EqualsIgnoreCase(DisplayName(a), DisplayName(b))
    ensures a == b ==> r == 0
  {
    JavaText.CompareToIgnoreCase(DisplayName(a), DisplayName(b))
  }

  lemma CompareToAntisymmetric(a: OperatingSystem, b: OperatingSystem)
    ensures CompareTo(b, a) == -CompareTo(a, b)
  {
    JavaText.CompareToIgnoreCaseAntisymmetric(DisplayName(a), DisplayName(b));
  }

  lemma DisplayNameShifted(a: OperatingSystem)
    requires a.versionMinor.None? && a.versionBuild.Some?
    ensures DisplayName(a) == DisplayName(a.(versionMinor := a.versionBuild, versionBuild := None))
  {
    var b := a.(versionMinor := a.versionBuild, versionBuild := None);
    var x := JavaText.NullText(a.vendor) + " " + JavaText.NullText(a.name)
      + MetaData.IntPart(" ", a.versionMajor, "");
    var v := MetaData.IntPart(".", a.versionBuild, "");
    assert MetaData.IntPart(".", a.versionMinor, "") == "";
    assert MetaData.IntPart(".", b.versionBuild, "") == "";
    assert x + "" + v == x + v + "";
  }

  /** A missing minor version lets the build number take its place in the display
      name: version 1.(null).2 and version 1.2.(null) display alike and so compare as
      equal, though they are not `equals`. */
  lemma CompareToConflatesVersions(a: OperatingSystem)
    requires a.versionMinor.None? && a.versionBuild.Some?
    ensures var b := a.(versionMinor := a.versionBuild, versionBuild := None);
            CompareTo(a, b) == 0 && !Equals(a, b)
  {
    var b := a.(versionMinor := a.versionBuild, versionBuild := None);
    DisplayNameShifted(a);
    assert JavaText.EqualsIgnoreCase(DisplayName(a), DisplayName(b));
  }
}
