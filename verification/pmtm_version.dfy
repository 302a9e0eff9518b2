/** The PMTM file-format versions known to the Java loader. A version is its declaration
    index, so Java's ordinal order is the order of the integers. */
module PmtmVersion {
  import opened Wrappers
  import JavaText

  /** The string written in PMTM files for each constant, in declaration order, as the
      enum declares it. The 0.3.0 constant carries a capital letter O, so the text "0.3.0"
      names no version. */
  const WrittenStrings: seq<string> := [
    "0.1", "0.2", "0.2.2", "0.2.3", "0.2.4", "0.2.5", "0.2.6", "0.2.7", "O.3.0", "0.3.1",
    "1.0.0", "2.0.0", "2.1.0", "2.1.1", "2.2.0", "2.2.1", "2.3.0", "2.3.1", "2.4.0"]

  newtype Version = n: int | 0 <= n < 19

  const V0_1: Version := 0
  const V0_2: Version := 1
  const V0_2_2: Version := 2
  const V0_2_3: Version := 3
  const V0_2_4: Version := 4
  const V0_2_5: Version := 5
  const V0_2_6: Version := 6
  const V0_2_7: Version := 7
  const V0_3_0: Version := 8
  const V0_3_1: Version := 9
  const V1_0_0: Version := 10
  const V2_0_0: Version := 11
  const V2_1_0: Version := 12
  const V2_1_1: Version := 13
  const V2_2_0: Version := 14
  const V2_2_1: Version := 15
  const V2_3_0: Version := 16
  const V2_3_1: Version := 17
  const V2_4_0: Version := 18

  /** `toString` as the enum declares it. */
  function ToStringAsWritten(v: Version): string {
    WrittenStrings[v]
  }

  /** `toString` as the constant's own name and comment mean it: 0.3.0 is spelt with a
      digit zero; every other constant as declared. */
  function ToString(v: Version): string {
    if v == V0_3_0 then "0.3.0" else WrittenStrings[v]
  }

  /** The string of a constant in the declared table or in the corrected one. */
  function StringOf(v: Version, asWritten: bool): string {
    if asWritten then ToStringAsWritten(v) else ToString(v)
  }

  predicate NamesIn(v: Version, s: string, asWritten: bool) {
    JavaText.EqualsIgnoreCase(StringOf(v, asWritten), s)
  }

  predicate Names(v: Version, s: string) { NamesIn(v, s, false) }

  /** The first constant from `from` on whose string equals `s` ignoring case. */
  function FirstNamed(from: int, s: string, asWritten: bool): (r: Option<Version>)
    requires 0 <= from <= 19
    ensures r.Some? ==> from <= r.value as int && NamesIn(r.value, s, asWritten)
                        && forall v: Version :: from <= v as int < r.value as int ==> !NamesIn(v, s, asWritten)
    ensures r.None? ==> forall v: Version :: from <= v as int ==> !NamesIn(v, s, asWritten)
    decreases 19 - from
  {
    if from == 19 then None
    else if NamesIn(from as Version, s, asWritten) then Some(from as Version)
    else FirstNamed(from + 1, s, asWritten)
  }

  /** `PMTMVersion.getFromString` over one of the two tables: the first constant whose
      string equals `s` ignoring case; an unknown string is an error. */
  function GetFromStringIn(s: string, asWritten: bool): (r: Result<Version>)
    ensures r.Success? ==> NamesIn(r.value, s, asWritten) && forall v: Version :: v < r.value ==> !NamesIn(v, s, asWritten)
    ensures r.Failure? <==> forall v: Version :: !NamesIn(v, s, asWritten)
  {
    match FirstNamed(0, s, asWritten)
    case Some(v) => Success(v)
    case None => Failure("Unknown PMTM version :" + s)
  }

  /** `getFromString` as the enum declares its strings. */
  function GetFromStringAsWritten(s: string): Result<Version> { GetFromStringIn(s, true) }

  /** `getFromString` with 0.3.0 spelt with a digit zero: the loader's reading under
      `asWritten := false`, through `GetFromStringIn`. */
  function GetFromString(s: string): (r: Result<Version>)
    ensures r.Success? ==> Names(r.value, s) && forall v: Version :: v < r.value ==> !Names(v, s)
    ensures r.Failure? <==> forall v: Version :: !Names(v, s)
  {
    GetFromStringIn(s, false)
  }

  /** `isEarlierThan`: declaration order. */
  predicate IsEarlierThan(a: Version, b: Version) { a < b }

  /** `isLaterThanOrEqualTo`: declaration order, inclusive. */
  predicate IsLaterThanOrEqualTo(a: Version, b: Version) { a >= b }

  /** `isLaterThanOrEqualTo` is exactly the negation of `isEarlierThan`, and `isEarlierThan`
      is a strict total order. */
  lemma OrderLaws(a: Version, b: Version, c: Version)
    ensures IsLaterThanOrEqualTo(a, b) <==> !IsEarlierThan(a, b)
    ensures !IsEarlierThan(a, a)
    ensures IsEarlierThan(a, b) && IsEarlierThan(b, c) ==> IsEarlierThan(a, c)
    ensures a != b ==> IsEarlierThan(a, b) || IsEarlierThan(b, a)
  {
  }

  /** The historical order: 0.2.2 < 0.2.3 < 0.2.6 < 0.2.7 < 2.0.0 < 2.2.0 < 2.2.1 < 2.3.0. */
  lemma HistoricalOrder()
    ensures ToString(V0_2_3) == "0.2.3" && ToString(V0_2_7) == "0.2.7" && ToString(V2_0_0) == "2.0.0"
    ensures ToString(V2_2_0) == "2.2.0" && ToString(V2_2_1) == "2.2.1" && ToString(V2_3_0) == "2.3.0"
    ensures IsEarlierThan(V0_2_2, V0_2_3) && IsEarlierThan(V0_2_6, V0_2_7)
    ensures IsEarlierThan(V0_2_7, V2_0_0) && IsEarlierThan(V2_2_0, V2_2_1) && IsEarlierThan(V2_2_1, V2_3_0)
  {
  }

  /** Every constant is found again from its own string, in either table. */
  lemma {:induction false} GetFromToString(v: Version, asWritten: bool)
    ensures GetFromStringIn(StringOf(v, asWritten), asWritten) == Success(v)
  {
    var s := StringOf(v, asWritten);
    forall w: Version | w != v
      ensures !NamesIn(w, s, asWritten)
    {
      if asWritten {
        DistinctWrittenNames(w, v);
      } else {
        DistinctNames(w, v);
      }
    }
    assert NamesIn(v, s, asWritten);
  }

  /** No two constants share a declared string, even ignoring case. */
  lemma DistinctWrittenNames(w: Version, v: Version)
    requires w != v
    ensures !NamesIn(w, ToStringAsWritten(v), true)
  {
    var a := ToStringAsWritten(w);
    var b := ToStringAsWritten(v);
    if |a| == |b| {
      var k := FirstDifference(w, v);
      assert JavaText.ToLower(a)[k] != JavaText.ToLower(b)[k];
    }
  }

  /** No two constants share a corrected string either: only 0.3.0's changed, and no other
      constant is named "0.3.0". */
  lemma DistinctNames(w: Version, v: Version)
    requires w != v
    ensures !Names(w, ToString(v))
  {
    if v == V0_3_0 {
      NotZeroThreeZero(w);
    } else if w == V0_3_0 {
      NotZeroThreeZero(v);
    } else {
      DistinctWrittenNames(w, v);
    }
  }

  /** An index where the declared strings of two distinct constants differ, even ignoring
      case. */
  function FirstDifference(w: Version, v: Version): (k: nat)
    requires w != v && |ToStringAsWritten(w)| == |ToStringAsWritten(v)|
    ensures k < |ToStringAsWritten(w)|
    ensures JavaText.ToLowerChar(ToStringAsWritten(w)[k]) != JavaText.ToLowerChar(ToStringAsWritten(v)[k])
  {
    var a := ToStringAsWritten(w);
    var b := ToStringAsWritten(v);
    if JavaText.ToLowerChar(a[0]) != JavaText.ToLowerChar(b[0]) then 0
    else if JavaText.ToLowerChar(a[2]) != JavaText.ToLowerChar(b[2]) then 2
    else 4
  }

  /** No declared string is "0.3.0", not even ignoring case. */
  lemma NotZeroThreeZero(v: Version)
    ensures !NamesIn(v, "0.3.0", true)
  {
    var t := ToStringAsWritten(v);
    if |t| == 5 {
      assert t[0] != '0' || t[2] != '3' || t[4] != '0';
    }
  }

  /** As declared, the text "0.3.0" that PMTM 0.3.0 writes is rejected... */
  lemma ZeroThreeZeroRejected()
    ensures GetFromStringAsWritten("0.3.0").Failure?
  {
    forall v: Version ensures !NamesIn(v, "0.3.0", true) {
      NotZeroThreeZero(v);
    }
  }

  /** ...and only the text "O.3.0" names version 0.3.0. */
  lemma CapitalOAccepted()
    ensures GetFromStringAsWritten("O.3.0") == Success(V0_3_0)
  {
    GetFromToString(V0_3_0, true);
  }

  /** With the corrected string, "0.3.0" names version 0.3.0. */
  lemma ZeroThreeZeroAccepted()
    ensures GetFromString("0.3.0") == Success(V0_3_0)
  {
    GetFromToString(V0_3_0, false);
  }

  /** Both tables agree on every constant but 0.3.0. */
  lemma TablesAgree(v: Version)
    requires v != V0_3_0
    ensures ToString(v) == ToStringAsWritten(v)
  {
  }

  /** So text that names 0.3.0 in neither table finds the same constant in both. */
  lemma TablesAgreeOn(s: string)
    requires !NamesIn(V0_3_0, s, true) && !NamesIn(V0_3_0, s, false)
    ensures GetFromStringIn(s, true) == GetFromStringIn(s, false)
  {
    FirstNamedAgrees(0, s);
  }

  lemma {:induction false} FirstNamedAgrees(from: int, s: string)
    requires 0 <= from <= 19
    requires !NamesIn(V0_3_0, s, true) && !NamesIn(V0_3_0, s, false)
    ensures FirstNamed(from, s, true) == FirstNamed(from, s, false)
    decreases 19 - from
  {
    if from < 19 {
      var v := from as Version;
      if v != V0_3_0 {
        TablesAgree(v);
      }
      FirstNamedAgrees(from + 1, s);
    }
  }
}
