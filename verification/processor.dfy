/** The processor a run was made on: a name, a vendor, an architecture, core and thread
    counts and a clock speed in MHz, every one of which may be null. */
module Processor {
  import opened Wrappers
  import JavaText
  import MetaData

  datatype Processor = Processor(
    name: Option<string>,
    vendor: Option<string>,
    architecture: Option<string>,
    cores: Option<int>,
    threadsPerCore: Option<int>,
    clockSpeed: Option<int>)

  const Fields: MetaData.Table := MetaData.ProcessorFields

  /** `getData`: the value of the named field; any other name is an
      `IllegalArgumentException`. */
  function GetData(p: Processor, n: string): (r: Result<Option<MetaData.Datum>>)
    ensures r.Success? <==> n in Fields.names
  {
    if n == "name" then Success(MetaData.TextDatum(p.name))
    else if n == "vendor" then Success(MetaData.TextDatum(p.vendor))
    else if n == "architecture" then Success(MetaData.TextDatum(p.architecture))
    else if n == "cores" then Success(MetaData.IntDatum(p.cores))
    else if n == "threadsPerCore" then Success(MetaData.IntDatum(p.threadsPerCore))
    else if n == "clockSpeed" then Success(MetaData.IntDatum(p.clockSpeed))
    else Failure("Unknown data name " + n)
  }

  /** The value of each field has the class the field table declares. */
  lemma GetDataTyped(p: Processor, i: nat)
    requires i < |Fields.names|
    ensures GetData(p, Fields.names[i]).Success?
    ensures MetaData.HasClass(GetData(p, Fields.names[i]).value, Fields.classes[i])
  {
  }

  function GetDataMap(p: Processor): (d: MetaData.DataMap)
    ensures |d| == |Fields.names|
  {
    map["name" := MetaData.TextDatum(p.name),
        "vendor" := MetaData.TextDatum(p.vendor),
        "architecture" := MetaData.TextDatum(p.architecture),
        "cores" := MetaData.IntDatum(p.cores),
        "threadsPerCore" := MetaData.IntDatum(p.threadsPerCore),
        "clockSpeed" := MetaData.IntDatum(p.clockSpeed)]
  }

  /** `getDataMap` holds exactly the names `getData` accepts, each with the value
      `getData` returns. */
  lemma GetDataMapAgrees(p: Processor, n: string)
    ensures n in GetDataMap(p) <==> GetData(p, n).Success?
    ensures n in GetDataMap(p) ==> GetData(p, n) == Success(GetDataMap(p)[n])
  {
  }

  lemma ConformsCasts(d: MetaData.DataMap)
    ensures MetaData.Conforms(d, Fields) <==>
      MetaData.CastText(d, "name").Success? && MetaData.CastText(d, "vendor").Success?
      && MetaData.CastText(d, "architecture").Success?
      && MetaData.CastInt(d, "cores").Success?
      && MetaData.CastInt(d, "threadsPerCore").Success?
      && MetaData.CastInt(d, "clockSpeed").Success?
  {
    var n := Fields.names;
    assert n[0] == "name" && n[1] == "vendor" && n[2] == "architecture";
    assert n[3] == "cores" && n[4] == "threadsPerCore" && n[5] == "clockSpeed";
  }

  /** The map constructor: each field is read by its name and cast to its class. */
  function FromMap(d: MetaData.DataMap): (r: Result<Processor>)
    ensures r.Success? <==> MetaData.Conforms(d, Fields)
  {
    ConformsCasts(d);
    var name :- MetaData.CastText(d, "name");
    var vendor :- MetaData.CastText(d, "vendor");
    var architecture :- MetaData.CastText(d, "architecture");
    var cores :- MetaData.CastInt(d, "cores");
    var threads :- MetaData.CastInt(d, "threadsPerCore");
    var clock :- MetaData.CastInt(d, "clockSpeed");
    Success(Processor(name, vendor, architecture, cores, threads, clock))
  }

  lemma DataMapEntries(p: Processor)
    ensures var d := GetDataMap(p);
      && d["name"] == MetaData.TextDatum(p.name)
      && d["vendor"] == MetaData.TextDatum(p.vendor)
      && d["architecture"] == MetaData.TextDatum(p.architecture)
      && d["cores"] == MetaData.IntDatum(p.cores)
      && d["threadsPerCore"] == MetaData.IntDatum(p.threadsPerCore)
      && d["clockSpeed"] == MetaData.IntDatum(p.clockSpeed)
  {
  }

  /** Rebuilding a processor from its data map gives it back. */
  lemma FromDataMap(p: Processor)
    ensures FromMap(GetDataMap(p)) == Success(p)
  {
    DataMapEntries(p);
  }

  /** `equals`: all six fields are compared. */
  function Equals(a: Processor, b: Processor): (r: bool)
    ensures r <==> a == b
  {
    a.name == b.name && a.vendor == b.vendor && a.architecture == b.architecture
    && a.cores == b.cores && a.threadsPerCore == b.threadsPerCore
    && a.clockSpeed == b.clockSpeed
  }

  /** `displayName`: `vendor name` (a null shows as "null"), then ` arch`,
      ` <clock> MHz` and ` <cores> cores` for each part that is non-null. */
  function DisplayName(p: Processor): (r: string)
    ensures JavaText.StartsWith(r, JavaText.NullText(p.vendor) + " " + JavaText.NullText(p.name))
  {
    var head := JavaText.NullText(p.vendor) + " " + JavaText.NullText(p.name);
    var r := head + MetaData.Part(" ", p.architecture)
      + MetaData.IntPart(" ", p.clockSpeed, " MHz") + MetaData.IntPart(" ", p.cores, " cores");
    assert r[..|head|] == head;
    r
  }

  /** `compareTo`: display names compared ignoring case. */
  function CompareTo(a: Processor, b: Processor): (r: int)
    ensures r == 0 <==> JavaText.EqualsIgnoreCase(DisplayName(a), DisplayName(b))
    ensures a == b ==> r == 0
  {
    JavaText.CompareToIgnoreCase(DisplayName(a), DisplayName(b))
  }

  lemma CompareToAntisymmetric(a: Processor, b: Processor)
    ensures CompareTo(b, a) == -CompareTo(a, b)
  {
    JavaText.CompareToIgnoreCaseAntisymmetric(DisplayName(a), DisplayName(b));
  }

  /** The threads per core are not shown, so processors differing only there compare
      as equal but are not `equals`. */
  lemma CompareToIgnoresThreads(a: Processor, t: Option<int>)
    requires t != a.threadsPerCore
    ensures CompareTo(a, a.(threadsPerCore := t)) == 0 && !Equals(a, a.(threadsPerCore := t))
  {
  }
}
