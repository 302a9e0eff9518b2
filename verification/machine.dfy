/** The machine a run was made on: a name and a vendor, either of which may be null. Two
    machines are the same machine when their names agree; the vendor plays no part. */
module Machine {
  import opened Wrappers
  import JavaText
  import MetaData

  datatype Machine = Machine(name: Option<string>, vendor: Option<string>)

  const Fields: MetaData.Table := MetaData.MachineFields

  /** `getData`: the name or the vendor; any other name is an `IllegalArgumentException`. */
  function GetData(m: Machine, n: string): (r: Result<Option<MetaData.Datum>>)
    ensures r.Success? <==> n in Fields.names
  {
    if n == "name" then Success(MetaData.TextDatum(m.name))
    else if n == "vendor" then Success(MetaData.TextDatum(m.vendor))
    else Failure("Unknown data name " + n)
  }

  function GetDataMap(m: Machine): (d: MetaData.DataMap)
    ensures |d| == |Fields.names|
  {
    map["name" := MetaData.TextDatum(m.name), "vendor" := MetaData.TextDatum(m.vendor)]
  }

  /** `getDataMap` holds exactly the names `getData` accepts, each with the value
      `getData` returns. */
  lemma GetDataMapAgrees(m: Machine, n: string)
    ensures n in GetDataMap(m) <==> GetData(m, n).Success?
    ensures n in GetDataMap(m) ==> GetData(m, n) == Success(GetDataMap(m)[n])
  {
  }

  /** The map constructor: the name and the vendor cast to `String`. */
  function FromMap(d: MetaData.DataMap): (r: Result<Machine>)
    ensures r.Success? <==> MetaData.Conforms(d, Fields)
  {
    assert Fields.names[0] == "name" && Fields.names[1] == "vendor";
    var name :- MetaData.CastText(d, "name");
    var vendor :- MetaData.CastText(d, "vendor");
    Success(Machine(name, vendor))
  }

  /** Rebuilding a machine from its data map gives it back. */
  lemma FromDataMap(m: Machine)
    ensures FromMap(GetDataMap(m)) == Success(m)
  {
  }

  /** `equals`: the names alone are compared. */
  function Equals(a: Machine, b: Machine): (r: bool)
    ensures r <==> a.(vendor := None) == b.(vendor := None)
  {
    a.name == b.name
  }

  /** `hashCode`, `37 * 5` plus the hash of the name (0 for null), in 32-bit arithmetic. */
  function HashCode(m: Machine): (h: int)
    ensures JavaText.IsInt32(h)
  {
    JavaText.Wrap32(37 * 5 + (if m.name.Some? then JavaText.StringHash(m.name.value) else 0))
  }

  /** Equal machines hash alike, whatever their vendors. */
  lemma EqualsHashCode(a: Machine, b: Machine)
    requires Equals(a, b)
    ensures HashCode(a) == HashCode(b)
  {
  }

  /** Machines with the same name and different vendors are equal. */
  lemma VendorIgnored(a: Machine, v: Option<string>)
    ensures Equals(a, a.(vendor := v)) && HashCode(a) == HashCode(a.(vendor := v))
  {
  }

  /** `displayName` is the name itself, which may be null. */
  function DisplayName(m: Machine): Option<string> {
    m.name
  }

  /** `compareTo`: the names compared ignoring case; a null name on either side is a
      `NullPointerException`. */
  function CompareTo(a: Machine, b: Machine): (r: Result<int>)
    ensures r.Success? <==> a.name.Some? && b.name.Some?
    ensures r.Success? ==> (r.value == 0 <==> JavaText.EqualsIgnoreCase(a.name.value, b.name.value))
  {
    match (DisplayName(a), DisplayName(b))
    case (Some(x), Some(y)) => Success(JavaText.CompareToIgnoreCase(x, y))
    case _ => Failure("NullPointerException")
  }

  lemma CompareToAntisymmetric(a: Machine, b: Machine)
    requires a.name.Some? && b.name.Some?
    ensures CompareTo(b, a).value == -CompareTo(a, b).value
  {
    JavaText.CompareToIgnoreCaseAntisymmetric(a.name.value, b.name.value);
  }
}
