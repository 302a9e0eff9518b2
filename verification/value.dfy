/** `uk.co.awe.pmat.db.Value`: a named, ranked datum with an optional error, error type,
    call count and pause count. */
module Value {
  import opened Wrappers
  import JavaText
  import opened JavaNumber
  import Rank

  /** The kinds of error estimate the loaders attach. */
  datatype ErrorType = NoError | PmtmStandard | SkampiStandard

  /** The payload of a value: a `String`, an `Integer` or a `Double`. */
  datatype Datum = StringVal(s: string) | IntegerVal(n: int) | DoubleVal(d: Dbl)

  /** The runtime class of a payload, `Void` standing for a null payload. */
  datatype JavaClass = StringClass | IntegerClass | DoubleClass | VoidClass

  function ClassOf(p: Option<Datum>): (c: JavaClass)
    ensures c == VoidClass <==> p.None?
  {
    match p
    case None => VoidClass
    case Some(StringVal(_)) => StringClass
    case Some(IntegerVal(_)) => IntegerClass
    case Some(DoubleVal(_)) => DoubleClass
  }

  /** The simple name of a class, as `getSimpleName` gives it. */
  function SimpleName(c: JavaClass): string {
    match c
    case StringClass => "String"
    case IntegerClass => "Integer"
    case DoubleClass => "Double"
    case VoidClass => "Void"
  }

  datatype Value = Value(name: string, value: Option<Datum>, error: Option<Datum>,
                         errorType: Option<ErrorType>, rank: Rank.Rank,
                         count: Option<int>, pauseCount: Option<int>)
  {
    /** The class recorded at construction: that of the payload, or `Void`. */
    function ValueClass(): JavaClass { ClassOf(value) }
  }

  /** The seven-argument constructor: a null name or rank is a `NullPointerException`;
      every other argument is stored as given. */
  function New(name: Option<string>, value: Option<Datum>, error: Option<Datum>,
               errorType: Option<ErrorType>, rank: Option<Rank.Rank>,
               count: Option<int>, pauseCount: Option<int>): (r: Result<Value>)
    ensures r.Success? <==> name.Some? && rank.Some?
    ensures r.Success? ==>
              r.value.name == name.value && r.value.rank == rank.value
              && r.value.value == value && r.value.error == error && r.value.errorType == errorType
              && r.value.count == count && r.value.pauseCount == pauseCount
  {
    if name.None? || rank.None? then Failure("NullPointerException")
    else Success(Value(name.value, value, error, errorType, rank.value, count, pauseCount))
  }

  /** The three-argument constructor: no error, error type, count or pause count. */
  function Simple(name: string, rank: Rank.Rank, value: Option<Datum>): (r: Value)
    ensures New(Some(name), value, None, None, Some(rank), None, None) == Success(r)
  {
    Value(name, value, None, None, rank, None, None)
  }

  /** `valueOf(type, text)`: a value named "" with rank UNKNOWN whose payload is `text`
      read as the named class; any other class name is an `IllegalArgumentException` and
      unparsable text a `NumberFormatException`. */
  function ValueOf(typeName: string, text: string): (r: Result<Value>)
    ensures r.Success? ==>
              r.value.name == "" && r.value.rank == Rank.Unknown
              && SimpleName(r.value.ValueClass()) == typeName
              && r.value.error.None? && r.value.count.None? && r.value.pauseCount.None?
    ensures typeName == "String" ==> r == Success(Simple("", Rank.Unknown, Some(StringVal(text))))
    ensures typeName == "Integer" ==> (r.Success? <==> JavaText.ParseInt(text).Some?)
    ensures typeName == "Double" ==> (r.Success? <==> ParseDouble(text).Some?)
    ensures typeName !in {"String", "Integer", "Double"} ==> r.Failure?
  {
    if typeName == "String" then Success(Simple("", Rank.Unknown, Some(StringVal(text))))
    else if typeName == "Integer" then
      match JavaText.ParseInt(text)
      case Some(n) => Success(Simple("", Rank.Unknown, Some(IntegerVal(n))))
      case None => Failure("NumberFormatException")
    else if typeName == "Double" then
      match ParseDouble(text)
      case Some(d) => Success(Simple("", Rank.Unknown, Some(DoubleVal(d))))
      case None => Failure("NumberFormatException")
    else Failure("Unknown type " + typeName)
  }

  /** `updateName`: a copy with a new name. */
  function UpdateName(v: Value, name: string): (r: Value)
    ensures r.name == name
    ensures r.(name := v.name) == v
  {
    v.(name := name)
  }

  /** `updateValue(newVal)`: a copy with a new payload. */
  function UpdateValue(v: Value, newVal: Option<Datum>): (r: Value)
    ensures r.value == newVal
    ensures r.(value := v.value) == v
  {
    v.(value := newVal)
  }

  /** `updateValue(dblVal, dblErr)`: a copy with a new double payload and error. */
  function UpdateValueAndError(v: Value, val: Option<Dbl>, err: Option<Dbl>): (r: Value)
    ensures r.value == (if val.Some? then Some(DoubleVal(val.value)) else None)
    ensures r.error == (if err.Some? then Some(DoubleVal(err.value)) else None)
    ensures r.(value := v.value, error := v.error) == v
  {
    v.(value := if val.Some? then Some(DoubleVal(val.value)) else None,
       error := if err.Some? then Some(DoubleVal(err.value)) else None)
  }

  /** `doubleValue`: an `Integer` payload (and its error) is widened to `Double`, a
      `Double` value is returned as it is, and any other value loses its payload and
      error. Casting a non-`Integer` error of an `Integer` value fails. */
  function DoubleValue(v: Value): (r: Result<Value>)
    ensures r.Success? ==> r.value.value.None? || r.value.value.value.DoubleVal?
    ensures r.Success? ==> r.value.(value := v.value, error := v.error) == v
    ensures v.value.Some? && v.value.value.DoubleVal? ==> r == Success(v)
    ensures v.value.Some? && v.value.value.IntegerVal? && (v.error.None? || v.error.value.IntegerVal?) ==>
              r.Success? && r.value.value == Some(DoubleVal(Finite(v.value.value.n as real)))
              && (v.error.Some? ==> r.value.error == Some(DoubleVal(Finite(v.error.value.n as real))))
    ensures (v.value.None? || v.value.value.StringVal?) ==>
              r.Success? && r.value.value.None? && r.value.error.None?
  {
    match v.value
    case Some(IntegerVal(n)) =>
      (match v.error
       case None => Success(UpdateValueAndError(v, Some(Finite(n as real)), None))
       case Some(IntegerVal(e)) => Success(UpdateValueAndError(v, Some(Finite(n as real)), Some(Finite(e as real))))
       case Some(_) => Failure("ClassCastException"))
    case Some(DoubleVal(_)) => Success(v)
    case _ => Success(UpdateValueAndError(v, None, None))
  }

  /** `Double.compare`: NaN is above every other value and equal to itself. */
  function CompareDbl(a: Dbl, b: Dbl): (r: int)
    ensures r in {-1, 0, 1}
    ensures r == 0 <==> a == b
  {
    if a == b then 0
    else if a.NaN? then 1
    else if b.NaN? then -1
    else if a.PosInf? || b.NegInf? then 1
    else if a.NegInf? || b.PosInf? then -1
    else if a.x < b.x then -1 else 1
  }

  /** `Integer.compareTo`. */
  function CompareInt(a: int, b: int): (r: int)
    ensures r in {-1, 0, 1}
    ensures r == 0 <==> a == b
    ensures r < 0 <==> a < b
  {
    if a < b then -1 else if a == b then 0 else 1
  }

  /** The natural order of two payloads of the same class. */
  function CompareDatum(a: Datum, b: Datum): int
    requires ClassOf(Some(a)) == ClassOf(Some(b))
  {
    match (a, b)
    case (StringVal(x), StringVal(y)) => JavaText.CompareTo(x, y)
    case (IntegerVal(x), IntegerVal(y)) => CompareInt(x, y)
    case (DoubleVal(x), DoubleVal(y)) => CompareDbl(x, y)
  }

  /** `compareTo`: values of different classes are -1 whichever way round; two null
      payloads are equal; otherwise the payloads' natural order. */
  function CompareTo(a: Value, b: Value): (r: int)
    ensures a.ValueClass() != b.ValueClass() ==> r == -1
    ensures a.ValueClass() == b.ValueClass() ==> (r == 0 <==> a.value == b.value)
  {
    if a.ValueClass() == b.ValueClass() then
      if a.value.None? && b.value.None? then 0
      else CompareDatum(a.value.value, b.value.value)
    else -1
  }

  /** Comparing values of one class is antisymmetric; across classes it is -1 both ways. */
  lemma CompareToSigns(a: Value, b: Value)
    ensures a.ValueClass() == b.ValueClass() ==> (CompareTo(a, b) < 0 <==> CompareTo(b, a) > 0)
    ensures a.ValueClass() != b.ValueClass() ==> CompareTo(a, b) == CompareTo(b, a) == -1
  {
    if a.ValueClass() == b.ValueClass() && a.value.Some? {
      match (a.value.value, b.value.value)
      case (StringVal(x), StringVal(y)) => JavaText.CompareToAntisymmetric(x, y);
      case (IntegerVal(x), IntegerVal(y)) =>
      case (DoubleVal(x), DoubleVal(y)) =>
    }
  }

  /** `equals`: name, rank, payload, error, error type, count and pause count all agree. */
  predicate Equals(a: Value, b: Value) {
    a.name == b.name && Rank.Equals(a.rank, b.rank) && a.value == b.value && a.error == b.error
    && a.errorType == b.errorType && a.count == b.count && a.pauseCount == b.pauseCount
  }

  /** `equals` is exactly equality of the modelled record, so it is an equivalence. */
  lemma EqualsIsIdentity(a: Value, b: Value)
    ensures Equals(a, b) <==> a == b
  {
  }
}
