/** The MPI library a run was built against: a name, a vendor and a three-part version,
    every one of which may be null. */
module Mpi {
  import opened Wrappers
  import JavaText
  import MetaData

  datatype Mpi = Mpi(
    name: Option<string>,
    vendor: Option<string>,
    versionMajor: Option<int>,
    versionMinor: Option<int>,
    versionBuild: Option<int>)

  const Fields: MetaData.Table := MetaData.MpiFields

  /** `getData`: the value of the named field; any other name is an
      `IllegalArgumentException`. */
  function GetData(m: Mpi, n: string): (r: Result<Option<MetaData.Datum>>)
    ensures r.Success? <==> n in Fields.names
  {
    if n == "name" then Success(MetaData.TextDatum(m.name))
    else if n == "vendor" then Success(MetaData.TextDatum(m.vendor))
    else if n == "versionMajor" then Success(MetaData.IntDatum(m.versionMajor))
    else if n == "versionMinor" then Success(MetaData.IntDatum(m.versionMinor))
    else if n == "versionBuild" then Success(MetaData.IntDatum(m.versionBuild))
    else Failure("Unknown data name " + n)
  }

  /** The value of each field has the class the field table declares. */
  lemma GetDataTyped(m: Mpi, i: nat)
    requires i < |Fields.names|
    ensures GetData(m, Fields.names[i]).Success?
    ensures MetaData.HasClass(GetData(m, Fields.names[i]).value, Fields.classes[i])
  {
  }

  function GetDataMap(m: Mpi): (d: MetaData.DataMap)
    ensures |d| == |Fields.names|
  {
    map["name" := MetaData.TextDatum(m.name),
        "vendor" := MetaData.TextDatum(m.vendor),
        "versionMajor" := MetaData.IntDatum(m.versionMajor),
        "versionMinor" := MetaData.IntDatum(m.versionMinor),
        "versionBuild" := MetaData.IntDatum(m.versionBuild)]
  }

  /** `getDataMap` holds exactly the names `getData` accepts, each with the value
      `getData` returns. */
  lemma GetDataMapAgrees(m: Mpi, n: string)
    ensures n in GetDataMap(m) <==> GetData(m, n).Success?
    ensures n in GetDataMap(m) ==> GetData(m, n) == Success(GetDataMap(m)[n])
  {
  }

  lemma ConformsCasts(d: MetaData.DataMap)
    ensures MetaData.Conforms(d, Fields) <==>
      MetaData.CastText(d, "name").Success? && MetaData.CastText(d, "vendor").Success?
      && MetaData.CastInt(d, "versionMajor").Success?
      && MetaData.CastInt(d, "versionMinor").Success?
      && MetaData.CastInt(d, "versionBuild").Success?
  {
    var n := Fields.names;
    assert n[0] == "name" && n[1] == "vendor" && n[2] == "versionMajor";
    assert n[3] == "versionMinor" && n[4] == "versionBuild";
  }

  /** The map constructor: each field is read by its name and cast to its class. */
  function FromMap(d: MetaData.DataMap): (r: Result<Mpi>)
    ensures r.Success? <==> MetaData.Conforms(d, Fields)
  {
    ConformsCasts(d);
    var name :- MetaData.CastText(d, "name");
    var vendor :- MetaData.CastText(d, "vendor");
    var major :- MetaData.CastInt(d, "versionMajor");
    var minor :- MetaData.CastInt(d, "versionMinor");
    var build :- MetaData.CastInt(d, "versionBuild");
    Success(Mpi(name, vendor, major, minor, build))
  }

  /** Rebuilding an MPI record from its data map gives it back. */
  lemma FromDataMap(m: Mpi)
    ensures FromMap(GetDataMap(m)) == Success(m)
  {
  }

  /** `equals`: all five fields are compared. */
  function Equals(a: Mpi, b: Mpi): (r: bool)
    ensures r <==> a == b
  {
    a.name == b.name && a.vendor == b.vendor && a.versionMajor == b.versionMajor
    && a.versionMinor == b.versionMinor && a.versionBuild == b.versionBuild
  }

  /** `displayName`: the name, then ` major`, `.minor` and `.build` for each part that is
      non-null. The vendor is not shown. */
  function DisplayName(m: Mpi): (r: string)
    ensures JavaText.StartsWith(r, JavaText.NullText(m.name))
  {
    var head := JavaText.NullText(m.name);
    var r := head + MetaData.IntPart(" ", m.versionMajor, "")
      + MetaData.IntPart(".", m.versionMinor, "") + MetaData.IntPart(".", m.versionBuild, "");
    assert r[..|head|] == head;
    r
  }

  /** `compareTo`: display names compared ignoring case. */
  function CompareTo(a: Mpi, b: Mpi): (r: int)
    ensures r == 0 <==> JavaText.EqualsIgnoreCase(DisplayName(a), DisplayName(b))
    ensures a == b ==> r == 0
  {
    JavaText.CompareToIgnoreCase(DisplayName(a), DisplayName(b))
  }

  lemma CompareToAntisymmetric(a: Mpi, b: Mpi)
    ensures CompareTo(b, a) == -CompareTo(a, b)
  {
    JavaText.CompareToIgnoreCaseAntisymmetric(DisplayName(a), DisplayName(b));
  }

  /** Two MPI records that differ only in the vendor compare as equal but are not
      `equals`. */
  lemma CompareToIgnoresVendor(a: Mpi, v: Option<string>)
    requires v != a.vendor
    ensures CompareTo(a, a.(vendor := v)) == 0 && !Equals(a, a.(vendor := v))
  {
  }
}
