/** The application a run was produced by: a name, a three-part version with a code, a
    description and a privacy flag, every one of which may be null. */
module Application {
  import opened Wrappers
  import JavaText
  import MetaData

  datatype Application = Application(
    name: Option<string>,
    versionMajor: Option<int>,
    versionMinor: Option<int>,
    versionBuild: Option<int>,
    versionCode: Option<string>,
    description: Option<string>,
    dataPrivate: Option<bool>)

  const Fields: MetaData.Table := MetaData.ApplicationFields

  /** `getData`: the value of the named field; any other name is an
      `IllegalArgumentException`. */
  function GetData(a: Application, n: string): (r: Result<Option<MetaData.Datum>>)
    ensures r.Success? <==> n in Fields.names
  {
    if n == "name" then Success(MetaData.TextDatum(a.name))
    else if n == "versionMajor" then Success(MetaData.IntDatum(a.versionMajor))
    else if n == "versionMinor" then Success(MetaData.IntDatum(a.versionMinor))
    else if n == "versionBuild" then Success(MetaData.IntDatum(a.versionBuild))
    else if n == "versionCode" then Success(MetaData.TextDatum(a.versionCode))
    else if n == "description" then Success(MetaData.TextDatum(a.description))
    else if n == "dataPrivate" then Success(MetaData.FlagDatum(a.dataPrivate))
    else Failure("Unknown data name " + n)
  }

  /** The value of each field has the class the field table declares. */
  lemma GetDataTyped(a: Application, i: nat)
    requires i < |Fields.names|
    ensures GetData(a, Fields.names[i]).Success?
    ensures MetaData.HasClass(GetData(a, Fields.names[i]).value, Fields.classes[i])
  {
  }

  /** `getDataMap`: exactly the names `getData` accepts, each with the value it returns. */
  function GetDataMap(a: Application): (m: MetaData.DataMap)
    ensures |m| == |Fields.names|
  {
    map["name" := MetaData.TextDatum(a.name),
        "versionMajor" := MetaData.IntDatum(a.versionMajor),
        "versionMinor" := MetaData.IntDatum(a.versionMinor),
        "versionBuild" := MetaData.IntDatum(a.versionBuild),
        "versionCode" := MetaData.TextDatum(a.versionCode),
        "description" := MetaData.TextDatum(a.description),
        "dataPrivate" := MetaData.FlagDatum(a.dataPrivate)]
  }

  /** `getDataMap` holds exactly the names `getData` accepts, each with the value
      `getData` returns. */
  lemma GetDataMapAgrees(a: Application, n: string)
    ensures n in GetDataMap(a) <==> GetData(a, n).Success?
    ensures n in GetDataMap(a) ==> GetData(a, n) == Success(GetDataMap(a)[n])
  {
  }

  lemma ConformsCasts(m: MetaData.DataMap)
    ensures MetaData.Conforms(m, Fields) <==>
      MetaData.CastText(m, "name").Success? && MetaData.CastInt(m, "versionMajor").Success?
      && MetaData.CastInt(m, "versionMinor").Success?
      && MetaData.CastInt(m, "versionBuild").Success?
      && MetaData.CastText(m, "versionCode").Success?
      && MetaData.CastText(m, "description").Success?
      && MetaData.CastFlag(m, "dataPrivate").Success?
  {
    var n := Fields.names;
    assert n[0] == "name" && n[1] == "versionMajor" && n[2] == "versionMinor";
    assert n[3] == "versionBuild" && n[4] == "versionCode" && n[5] == "description";
    assert n[6] == "dataPrivate";
  }

  /** The map constructor: each field is read by its name and cast to its class, so a
      missing key gives null and a value of the wrong class is a `ClassCastException`. */
  function FromMap(m: MetaData.DataMap): (r: Result<Application>)
    ensures r.Success? <==> MetaData.Conforms(m, Fields)
  {
    ConformsCasts(m);
    var name :- MetaData.CastText(m, "name");
    var major :- MetaData.CastInt(m, "versionMajor");
    var minor :- MetaData.CastInt(m, "versionMinor");
    var build :- MetaData.CastInt(m, "versionBuild");
    var code :- MetaData.CastText(m, "versionCode");
    var description :- MetaData.CastText(m, "description");
    var dataPrivate :- MetaData.CastFlag(m, "dataPrivate");
    Success(Application(name, major, minor, build, code, description, dataPrivate))
  }

  /** The map constructor reads each field from the entry of the same name. */
  lemma FromMapReads(m: MetaData.DataMap, n: string)
    requires FromMap(m).Success? && n in m && n in Fields.names
    ensures GetData(FromMap(m).value, n) == Success(m[n])
  {
  }

  lemma DataMapEntries(a: Application)
    ensures var m := GetDataMap(a);
      && m["name"] == MetaData.TextDatum(a.name)
      && m["versionMajor"] == MetaData.IntDatum(a.versionMajor)
      && m["versionMinor"] == MetaData.IntDatum(a.versionMinor)
      && m["versionBuild"] == MetaData.IntDatum(a.versionBuild)
      && m["versionCode"] == MetaData.TextDatum(a.versionCode)
      && m["description"] == MetaData.TextDatum(a.description)
      && m["dataPrivate"] == MetaData.FlagDatum(a.dataPrivate)
  {
    var n := Fields.names;
    assert n[0] == "name" && n[1] == "versionMajor" && n[2] == "versionMinor";
    assert n[3] == "versionBuild" && n[4] == "versionCode" && n[5] == "description";
    assert n[6] == "dataPrivate";
  }

  /** Rebuilding an application from its data map gives it back. */
  lemma FromDataMap(a: Application)
    ensures FromMap(GetDataMap(a)) == Success(a)
  {
    DataMapEntries(a);
  }

  /** `equals`: all seven fields are compared, the description and the flag included. */
  function Equals(a: Application, b: Application): (r: bool)
    ensures r <==> a == b
  {
    a.name == b.name && a.versionMajor == b.versionMajor && a.versionMinor == b.versionMinor
    && a.versionBuild == b.versionBuild && a.versionCode == b.versionCode
    && a.description == b.description && a.dataPrivate == b.dataPrivate
  }

  /** `displayName`, the format `"%s v%d.%d.%d %s"`; a null prints as "null". */
  function DisplayName(a: Application): (r: string)
    ensures JavaText.StartsWith(r, JavaText.NullText(a.name) + " v")
  {
    var head := JavaText.NullText(a.name) + " v";
    var r := head + JavaText.IntText(a.versionMajor) + "." + JavaText.IntText(a.versionMinor)
      + "." + JavaText.IntText(a.versionBuild) + " " + JavaText.NullText(a.versionCode);
    assert r[..|head|] == head;
    r
  }

  /** `compareTo`: display names compared ignoring case. */
  function CompareTo(a: Application, b: Application): (r: int)
    ensures r == 0 <==> JavaText.EqualsIgnoreCase(DisplayName(a), DisplayName(b))
    ensures a == b ==> r == 0
  {
    JavaText.CompareToIgnoreCase(DisplayName(a), DisplayName(b))
  }

  lemma CompareToAntisymmetric(a: Application, b: Application)
    ensures CompareTo(b, a) == -CompareTo(a, b)
  {
    JavaText.CompareToIgnoreCaseAntisymmetric(DisplayName(a), DisplayName(b));
  }

  /** The display name leaves out the description and the privacy flag, so two
      applications that differ only there compare as equal but are not `equals`. */
  lemma CompareToIgnoresDescription(a: Application, d: Option<string>, p: Option<bool>)
    requires d != a.description
    ensures var b := a.(description := d, dataPrivate := p);
            CompareTo(a, b) == 0 && !Equals(a, b)
  {
  }
}
