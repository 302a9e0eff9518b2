/** `uk.co.awe.pmat.db.Rank`: an MPI rank, or one of six special ranks with negative codes. */
module Rank {
  import opened Wrappers
  import JavaText

  datatype Rank = Rank(n: int)

  const AllRanks := Rank(-1)
  const AnyRank := Rank(-2)
  const RankAvg := Rank(-3)
  const RankMax := Rank(-4)
  const RankMin := Rank(-5)
  const Unknown := Rank(-6)

  /** The special ranks: enum name, display name and code, in declaration order. */
  datatype Special = Special(enumName: string, display: string, code: int)

  const Specials: seq<Special> := [
    Special("ALL_RANKS", "All Ranks", -1),
    Special("ANY_RANK", "Any Rank", -2),
    Special("RANK_AVG", "Rank Average", -3),
    Special("RANK_MAX", "Rank Maximum", -4),
    Special("RANK_MIN", "Rank Minimum", -5),
    Special("UNKNOWN", "Unknown", -6)]

  predicate IsSpecialCode(n: int) { -6 <= n <= -1 }

  /** The special entry with code `n`. */
  function SpecialOf(n: int): (s: Special)
    requires IsSpecialCode(n)
    ensures s in Specials && s.code == n
  {
    Specials[-n - 1]
  }

  /** The index of the special whose display name is `d`, if any (`RankEnum.fromString`). */
  function FindDisplay(d: string, from: nat): (r: Option<nat>)
    requires from <= |Specials|
    ensures r.Some? ==> from <= r.value < |Specials| && Specials[r.value].display == d
    ensures r.None? ==> forall k :: from <= k < |Specials| ==> Specials[k].display != d
    decreases |Specials| - from
  {
    if from == |Specials| then None
    else if Specials[from].display == d then Some(from)
    else FindDisplay(d, from + 1)
  }

  /** The index of the special whose enum name is `e`, if any (`RankEnum.valueOf`). */
  function FindEnumName(e: string, from: nat): (r: Option<nat>)
    requires from <= |Specials|
    ensures r.Some? ==> from <= r.value < |Specials| && Specials[r.value].enumName == e
    ensures r.None? ==> forall k :: from <= k < |Specials| ==> Specials[k].enumName != e
    decreases |Specials| - from
  {
    if from == |Specials| then None
    else if Specials[from].enumName == e then Some(from)
    else FindEnumName(e, from + 1)
  }

  /** `asInteger`. */
  function AsInteger(r: Rank): int { r.n }

  /** `fromInteger`: null stands for UNKNOWN, any other integer is that rank. */
  function FromInteger(i: Option<int>): (r: Rank)
    ensures i.None? ==> r == Unknown
    ensures i.Some? ==> AsInteger(r) == i.value
  {
    match i
    case None => Unknown
    case Some(n) => Rank(n)
  }

  /** `fromString`: a special rank's display name, or else a decimal `int`; anything else
      is an error (`NumberFormatException`). */
  function FromString(s: string): (r: Result<Rank>)
    ensures (exists k :: 0 <= k < |Specials| && Specials[k].display == s) ==>
              r.Success? && r.value.n in {-1, -2, -3, -4, -5, -6} && SpecialOf(r.value.n).display == s
    ensures (forall k :: 0 <= k < |Specials| ==> Specials[k].display != s) ==>
              (r.Success? <==> JavaText.ParseInt(s).Some?) &&
              (r.Success? ==> r.value.n == JavaText.ParseInt(s).value)
  {
    match FindDisplay(s, 0)
    case Some(k) => Success(Rank(Specials[k].code))
    case None =>
      match JavaText.ParseInt(s)
      case Some(n) => Success(FromInteger(Some(n)))
      case None => Failure("For input string: \"" + s + "\"")
  }

  /** `valueOf`: a special rank's enum constant name, or else a decimal `int`. */
  function ValueOf(s: string): (r: Result<Rank>)
    ensures (exists k :: 0 <= k < |Specials| && Specials[k].enumName == s) ==>
              r.Success? && IsSpecialCode(r.value.n) && SpecialOf(r.value.n).enumName == s
    ensures (forall k :: 0 <= k < |Specials| ==> Specials[k].enumName != s) ==>
              (r.Success? <==> JavaText.ParseInt(s).Some?) &&
              (r.Success? ==> r.value.n == JavaText.ParseInt(s).value)
  {
    match FindEnumName(s, 0)
    case Some(k) => Success(Rank(Specials[k].code))
    case None =>
      match JavaText.ParseInt(s)
      case Some(n) => Success(FromInteger(Some(n)))
      case None => Failure("For input string: \"" + s + "\"")
  }

  /** `toString`: the display name of a special rank, the decimal of a non-negative one;
      a negative code that is not special has no enum entry and fails. */
  function ToString(r: Rank): (s: Result<string>)
    ensures IsSpecialCode(r.n) ==> s == Success(SpecialOf(r.n).display)
    ensures r.n >= 0 ==> s.Success? && JavaText.ParseInt(s.value) == (if JavaText.IsInt32(r.n) then Some(r.n) else JavaText.ParseInt(s.value))
    ensures r.n < -6 ==> s.Failure?
  {
    if r.n < 0 then
      if IsSpecialCode(r.n) then Success(SpecialOf(r.n).display) else Failure("NullPointerException")
    else
      JavaText.ParseIntToString(if JavaText.IsInt32(r.n) then r.n else 0);
      Success(JavaText.IntToString(r.n))
  }

  /** `name()`: the enum constant name of a special rank, the decimal of a non-negative one. */
  function Name(r: Rank): (s: Result<string>)
    ensures IsSpecialCode(r.n) ==> s == Success(SpecialOf(r.n).enumName)
    ensures r.n >= 0 ==> s.Success? && JavaText.AllDigits(s.value)
    ensures r.n < -6 ==> s.Failure?
  {
    if r.n < 0 then
      if IsSpecialCode(r.n) then Success(SpecialOf(r.n).enumName) else Failure("NullPointerException")
    else Success(JavaText.IntToString(r.n))
  }

  /** `equals`: the codes are equal. */
  predicate Equals(a: Rank, b: Rank) { a.n == b.n }

  /** `hashCode`: `43 * 7 + rank` in 32-bit arithmetic. */
  function HashCode(r: Rank): int {
    JavaText.Wrap32(43 * 7 + r.n)
  }

  /** `compareTo`: the 32-bit difference of the codes. */
  function CompareTo(a: Rank, b: Rank): int {
    JavaText.Wrap32(a.n - b.n)
  }

  /** Equal ranks hash alike; for codes whose difference fits in 32 bits `compareTo` is the
      exact difference, so it is zero exactly for equal ranks and its sign is the order. */
  lemma {:induction false} EqualsHashCompare(a: Rank, b: Rank)
    requires JavaText.IsInt32(a.n) && JavaText.IsInt32(b.n)
    ensures Equals(a, b) ==> HashCode(a) == HashCode(b)
    ensures JavaText.IsInt32(a.n - b.n) ==> CompareTo(a, b) == a.n - b.n
    ensures JavaText.IsInt32(a.n - b.n) ==> (CompareTo(a, b) == 0 <==> Equals(a, b))
  {
  }

  /** The six special ranks have codes -1..-6 and distinct display and enum names. */
  lemma SpecialTable()
    ensures forall k :: 0 <= k < |Specials| ==> Specials[k].code == -k - 1
    ensures forall i, j :: 0 <= i < j < |Specials| ==> Specials[i].display != Specials[j].display
    ensures forall i, j :: 0 <= i < j < |Specials| ==> Specials[i].enumName != Specials[j].enumName
  {
  }

  /** `fromString(toString(r)) == r` for the special ranks and every non-negative `int` rank. */
  lemma {:induction false} FromStringToString(r: Rank)
    requires IsSpecialCode(r.n) || (r.n >= 0 && JavaText.IsInt32(r.n))
    ensures ToString(r).Success?
    ensures FromString(ToString(r).value) == Success(r)
  {
    var s := ToString(r).value;
    if IsSpecialCode(r.n) {
      SpecialTable();
      assert Specials[-r.n - 1].display == s;
    } else {
      JavaText.ParseIntToString(r.n);
      forall k | 0 <= k < |Specials| ensures Specials[k].display != s {
        assert JavaText.AllDigits(s);
        assert !JavaText.IsDigit(Specials[k].display[0]);
      }
    }
  }

  /** The same holds for `valueOf` and `name()`. */
  lemma {:induction false} ValueOfName(r: Rank)
    requires IsSpecialCode(r.n) || (r.n >= 0 && JavaText.IsInt32(r.n))
    ensures Name(r).Success?
    ensures ValueOf(Name(r).value) == Success(r)
  {
    var s := Name(r).value;
    if IsSpecialCode(r.n) {
      SpecialTable();
      assert Specials[-r.n - 1].enumName == s;
    } else {
      JavaText.ParseIntToString(r.n);
      forall k | 0 <= k < |Specials| ensures Specials[k].enumName != s {
        assert !JavaText.IsDigit(Specials[k].enumName[0]);
      }
    }
  }
}
