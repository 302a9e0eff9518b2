/** `SkampiVersion`: the SkaMPI releases whose output can be read, in historical order. */
module SkampiVersion {
  import opened Wrappers
  import JavaText

  datatype Version = V5_0_4_355

  /** The constants in declaration order. */
  const Versions: seq<Version> := [V5_0_4_355]

  /** The position of a constant in declaration order. */
  function Ordinal(v: Version): (r: nat)
    ensures r < |Versions| && Versions[r] == v
  {
    match v
    case V5_0_4_355 => 0
  }

  /** `toString`: the version as the program reports it. */
  function ToString(v: Version): (r: string)
    ensures r != []
  {
    match v
    case V5_0_4_355 => "5.0.4 rev. 355"
  }

  /** `getFromString`: the constant whose text equals the input ignoring case; any other
      text is an `IllegalArgumentException`. With a single constant the search over the
      constants is one comparison. */
  function GetFromString(s: string): (r: Result<Version>)
    ensures r.Success? <==> exists v :: JavaText.EqualsIgnoreCase(ToString(v), s)
    ensures r.Success? ==> JavaText.EqualsIgnoreCase(ToString(r.value), s)
  {
    if JavaText.EqualsIgnoreCase(ToString(V5_0_4_355), s) then Success(V5_0_4_355)
    else Failure("Unknown Skampi version :" + s)
  }

  /** `isEarlier`: declaration order. */
  predicate IsEarlier(a: Version, b: Version) { Ordinal(a) < Ordinal(b) }

  /** Every constant is found again from its own text, in any case. */
  lemma {:induction false} GetFromToString(v: Version, s: string)
    requires JavaText.EqualsIgnoreCase(ToString(v), s)
    ensures GetFromString(s) == Success(v)
  {
  }

  /** No version is earlier than itself, and the order is transitive and total. */
  lemma IsEarlierOrder(a: Version, b: Version, c: Version)
    ensures !IsEarlier(a, a)
    ensures IsEarlier(a, b) && IsEarlier(b, c) ==> IsEarlier(a, c)
    ensures a != b ==> IsEarlier(a, b) || IsEarlier(b, a)
  {
  }
}
