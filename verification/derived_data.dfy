/** The derived-data expressions of the analysis screens: constants, variables and metadata
    properties, and the functions `ifeq`, `or` and `find` applied to them. Evaluating an
    expression adds columns to the rows of a data grid and names the column that holds its
    result. The text of a `Double` constant is `Double.toString`, which is not modelled: it
    is a parameter `showDouble` of evaluation. */
module Derived {
  import opened Wrappers
  import JavaText
  import JavaNumber
  import Rank
  import MetaData
  import Value
  import DataGrid
  import ArrayUtils

  /** The two kinds of variable: a parameter or a result column. */
  datatype VariableType = ParameterVar | ResultVar

  /** The functions of this model. */
  datatype Fn = Ifeq | Or | Find

  /** A parsed expression. A function is bound once its arguments are stored; an unbound one
      holds none, as after `newInstance`. */
  datatype DerivedData =
    | Constant(value: Value.Datum)
    | Variable(kind: VariableType, name: string)
    | Property(ptype: MetaData.Type)
    | Function(fn: Fn, bound: bool, args: seq<DerivedData>)

  // ---------------------------------------------------------------------------
  // Values and their types
  // ---------------------------------------------------------------------------

  /** `new Property(type)`: the type is read with `Type.valueOf`, so only the enum constants'
      names are accepted. */
  function NewProperty(typeName: string): (r: Result<DerivedData>)
    ensures r.Success? <==> exists t :: MetaData.EnumName(t) == typeName
    ensures r.Success? ==> r.value.Property? && MetaData.EnumName(r.value.ptype) == typeName
  {
    var t :- MetaData.ValueOf(typeName);
    Success(Property(t))
  }

  /** `returnTypes()`: the classes an expression can yield. */
  function ReturnTypes(d: DerivedData): (r: seq<Value.JavaClass>)
    ensures |r| == 1
  {
    match d
    case Constant(v) => [Value.ClassOf(Some(v))]
    case Variable(_, _) => [Value.DoubleClass]
    case Property(_) => [Value.StringClass]
    case Function(fn, _, _) => if fn == Ifeq then [Value.IntegerClass] else [Value.DoubleClass]
  }

  /** A constant's return type is the class of its value, never `Void`. */
  lemma ConstantTypes(v: Value.Datum)
    ensures ReturnTypes(Constant(v)) == [Value.ClassOf(Some(v))]
    ensures Value.ClassOf(Some(v)) != Value.VoidClass
  {
  }

  /** The value a constant writes into every row: named after its class, rank UNKNOWN. */
  function ConstantValue(v: Value.Datum): (r: Value.Value)
    ensures r.value == Some(v) && r.rank == Rank.Unknown
    ensures r.name == Value.SimpleName(Value.ClassOf(Some(v)))
  {
    Value.Simple(Value.SimpleName(Value.ClassOf(Some(v))), Rank.Unknown, Some(v))
  }

  /** `toString` of a constant's value. */
  function DatumText(v: Value.Datum, showDouble: JavaNumber.Dbl -> string): string {
    match v
    case StringVal(s) => s
    case IntegerVal(n) => JavaText.IntToString(n)
    case DoubleVal(x) => showDouble(x)
  }

  // ---------------------------------------------------------------------------
  // Binding
  // ---------------------------------------------------------------------------

  /** The first argument, from `i` on, whose types are not all allowed at its position. */
  function FirstMismatch(argTypes: seq<seq<Value.JavaClass>>, args: seq<DerivedData>, i: nat): (k: Option<nat>)
    requires |args| == |argTypes| && i <= |args|
    ensures k.None? <==> forall j :: i <= j < |args| ==> ArrayUtils.ContainsAll(argTypes[j], ReturnTypes(args[j]))
    ensures k.Some? ==> i <= k.value < |args| && !ArrayUtils.ContainsAll(argTypes[k.value], ReturnTypes(args[k.value]))
    decreases |args| - i
  {
    if i == |args| then None
    else if !ArrayUtils.ContainsAll(argTypes[i], ReturnTypes(args[i])) then Some(i)
    else FirstMismatch(argTypes, args, i + 1)
  }

  /** The arguments are as many as the allowed type lists and each one's types are all
      allowed at its position. */
  predicate Typed(argTypes: seq<seq<Value.JavaClass>>, args: seq<DerivedData>) {
    |args| == |argTypes|
    && forall j :: 0 <= j < |args| ==> ArrayUtils.ContainsAll(argTypes[j], ReturnTypes(args[j]))
  }

  /** `AbstractFunction.bind(argTypes, args)`: the argument count must match, then each
      argument's types must be among those allowed for it; the arguments are then stored as
      given. */
  function BindTyped(argTypes: seq<seq<Value.JavaClass>>, args: seq<DerivedData>): (r: Result<seq<DerivedData>>)
    ensures r.Success? <==> Typed(argTypes, args)
    ensures r.Success? ==> r.value == args
  {
    if |args| != |argTypes| then Failure("InvalidArgumentsException: wrong number of arguments")
    else if FirstMismatch(argTypes, args, 0).Some? then Failure("InvalidArgumentsException: wrong argument type")
    else Success(args)
  }

  /** The types `ifeq` allows for each of its two arguments. */
  const IfeqTypes: seq<seq<Value.JavaClass>> :=
    [[Value.StringClass, Value.DoubleClass, Value.IntegerClass],
     [Value.StringClass, Value.DoubleClass, Value.IntegerClass]]

  /** An expression that is itself a function. */
  predicate IsFunction(d: DerivedData) { d.Function? }

  /** The arguments each function's `bind` accepts. */
  predicate Accepts(fn: Fn, args: seq<DerivedData>) {
    match fn
    case Ifeq => Typed(IfeqTypes, args)
    case Or => |args| == 2 && args[0].Variable? && args[1].Variable?
    case Find =>
      |args| == 3 && (args[0].Variable? || IsFunction(args[0]))
      && (args[1].Variable? || args[1].Property?) && args[2].Constant?
  }

  /** `bind(args)` on a function: the function holding `args`, or the error its checks
      raise. A failed bind leaves the function as it was. */
  function Bind(fn: Fn, args: seq<DerivedData>): (r: Result<DerivedData>)
    ensures r.Success? <==> Accepts(fn, args)
    ensures r.Success? ==> r.value == Function(fn, true, args)
  {
    match fn
    case Ifeq =>
      var stored :- BindTyped(IfeqTypes, args);
      Success(Function(Ifeq, true, stored))
    case Or => BindOr(args)
    case Find => BindFind(args)
  }

  /** `Or.bind`: two arguments, each a variable. */
  function BindOr(args: seq<DerivedData>): (r: Result<DerivedData>)
    ensures r.Success? <==> Accepts(Or, args)
    ensures r.Success? ==> r.value == Function(Or, true, args)
  {
    if |args| != 2 then Failure("InvalidArgumentsException: Or expects 2 arguments")
    else if !args[0].Variable? then Failure("InvalidArgumentsException: the first argument in Or must be a Variable")
    else if !args[1].Variable? then Failure("InvalidArgumentsException: the second argument in Or must be a Variable")
    else Success(Function(Or, true, args))
  }

  /** `Find.bind`: a variable or function to select, a variable or property to test, and a
      constant to test it against. */
  function BindFind(args: seq<DerivedData>): (r: Result<DerivedData>)
    ensures r.Success? <==> Accepts(Find, args)
    ensures r.Success? ==> r.value == Function(Find, true, args)
  {
    if |args| != 3 then Failure("InvalidArgumentsException: Find expects 3 arguments")
    else if !(args[0].Variable? || IsFunction(args[0])) then Failure("InvalidArgumentsException: the first argument in Find must be a Variable or Function")
    else if !(args[1].Variable? || args[1].Property?) then Failure("InvalidArgumentsException: the second argument in Find must be a Variable or Property")
    else if !args[2].Constant? then Failure("InvalidArgumentsException: the third argument in Find must be a Constant")
    else Success(Function(Find, true, args))
  }

  /** `ifeq` takes exactly two arguments; a variable, a property or a constant of any class
      is accepted in either place. */
  lemma IfeqBindsTwoValues(a: DerivedData, b: DerivedData)
    requires a.Variable? || a.Constant? || a.Property?
    requires b.Variable? || b.Constant? || b.Property?
    ensures Bind(Ifeq, [a, b]).Success?
    ensures Bind(Ifeq, [a]).Failure? && Bind(Ifeq, [a, b, a]).Failure?
  {
    assert ArrayUtils.ContainsAll(IfeqTypes[0], ReturnTypes(a));
    assert ArrayUtils.ContainsAll(IfeqTypes[1], ReturnTypes(b));
  }

  /** `newInstance()`: the same function with no arguments bound. */
  function NewInstance(d: DerivedData): (r: DerivedData)
    requires d.Function?
    ensures r.Function? && r.fn == d.fn && !r.bound && r.args == []
  {
    Function(d.fn, false, [])
  }

  /** The arguments a function holds are those its `bind` accepted, all the way down: only
      `bind` stores arguments. */
  predicate WellFormed(d: DerivedData) {
    match d
    case Function(fn, bound, args) =>
      (if bound then Accepts(fn, args) else args == [])
      && forall i :: 0 <= i < |args| ==> WellFormed(args[i])
    case _ => true
  }

  /** Binding well-formed arguments gives a well-formed function, and a fresh instance is
      well-formed. */
  lemma BindWellFormed(fn: Fn, args: seq<DerivedData>)
    requires forall i :: 0 <= i < |args| ==> WellFormed(args[i])
    ensures Bind(fn, args).Success? ==> WellFormed(Bind(fn, args).value)
    ensures WellFormed(NewInstance(Function(fn, true, args)))
  {
  }

  /** `getArgs()` of a bound function: the stored arguments, in the order given to `bind`. */
  lemma BoundArgs(fn: Fn, args: seq<DerivedData>)
    requires Bind(fn, args).Success?
    ensures Bind(fn, args).value.args == args
  {
  }

  // ---------------------------------------------------------------------------
  // Grids
  // ---------------------------------------------------------------------------

  /** `h` is `g` with columns added or replaced: the same rows, each with the same x value
      and series, and at least the same column names. */
  predicate Extends(g: DataGrid.DataGrid, h: DataGrid.DataGrid) {
    h.xAxisName == g.xAxisName && h.yAxisName == g.yAxisName && |h.rows| == |g.rows|
    && forall i :: 0 <= i < |g.rows| ==> RowExtends(g.rows[i], h.rows[i])
  }

  predicate RowExtends(r: DataGrid.Row, s: DataGrid.Row) {
    s.x == r.x && s.series == r.series && r.y.Keys <= s.y.Keys
  }

  lemma ExtendsTransitive(a: DataGrid.DataGrid, b: DataGrid.DataGrid, c: DataGrid.DataGrid)
    requires Extends(a, b) && Extends(b, c)
    ensures Extends(a, c)
  {
    forall i | 0 <= i < |a.rows| ensures RowExtends(a.rows[i], c.rows[i]) {
      assert RowExtends(a.rows[i], b.rows[i]) && RowExtends(b.rows[i], c.rows[i]);
    }
  }

  /** The rows with column `name` set to `v` in every one. */
  function SetColumn(rows: seq<DataGrid.Row>, name: string, v: Option<Value.Value>): (r: seq<DataGrid.Row>)
    ensures |r| == |rows|
    ensures forall i :: 0 <= i < |rows| ==> r[i] == DataGrid.AddY(rows[i], name, v)
  {
    seq(|rows|, i requires 0 <= i < |rows| => DataGrid.AddY(rows[i], name, v))
  }

  /** Adding a column extends the grid. */
  lemma AddedColumnExtends(g: DataGrid.DataGrid, rows: seq<DataGrid.Row>, name: string)
    requires |rows| == |g.rows|
    requires forall i :: 0 <= i < |rows| ==> rows[i] == DataGrid.AddY(g.rows[i], name, DataGrid.GetY(rows[i], name))
    ensures Extends(g, g.(rows := rows))
  {
    forall i | 0 <= i < |rows| ensures RowExtends(g.rows[i], rows[i]) {
      assert rows[i].y.Keys == g.rows[i].y.Keys + {name};
    }
  }

  // ---------------------------------------------------------------------------
  // Evaluation
  // ---------------------------------------------------------------------------

  /** `evaluate(dataGrid)`: the grid with the expression's columns added, and the name of
      the column holding its result.
      - A constant writes its value into every row under its text.
      - A variable or a property names a column the grid already holds.
      - A function evaluates its arguments left to right, then applies itself to their
        columns; an unbound one cannot be evaluated. */
  function Evaluate(d: DerivedData, g: DataGrid.DataGrid, showDouble: JavaNumber.Dbl -> string): (r: Result<(DataGrid.DataGrid, string)>)
    requires WellFormed(d)
    ensures r.Success? ==> Extends(g, r.value.0)
    decreases d, 1
  {
    match d
    case Constant(v) =>
      var name := DatumText(v, showDouble);
      var rows := SetColumn(g.rows, name, Some(ConstantValue(v)));
      AddedColumnExtends(g, rows, name);
      Success((g.(rows := rows), name))
    case Variable(_, name) =>
      Success((g, name))
    case Property(t) =>
      Success((g, MetaData.FieldName(t)))
    case Function(fn, bound, args) =>
      if !bound then
        Failure(if fn == Ifeq then "IllegalStateException" else "NullPointerException")
      else
        var (h, cols) :- EvaluateAll(args, g, showDouble);
        ApplyExtends(fn, h, cols);
        ExtendsWhenApplied(g, h, fn, cols);
        Apply(fn, h, cols)
  }

  /** `a` then `b` extends. */
  lemma ExtendsWhenApplied(g: DataGrid.DataGrid, h: DataGrid.DataGrid, fn: Fn, cols: seq<string>)
    requires Extends(g, h)
    ensures Apply(fn, h, cols).Success? ==> Extends(g, Apply(fn, h, cols).value.0)
  {
    if Apply(fn, h, cols).Success? {
      ApplyExtends(fn, h, cols);
      ExtendsTransitive(g, h, Apply(fn, h, cols).value.0);
    }
  }

  /** The arguments evaluated in order, each on the grid the previous one left, with the
      columns they named. */
  function EvaluateAll(args: seq<DerivedData>, g: DataGrid.DataGrid, showDouble: JavaNumber.Dbl -> string): (r: Result<(DataGrid.DataGrid, seq<string>)>)
    requires forall i :: 0 <= i < |args| ==> WellFormed(args[i])
    ensures r.Success? ==> Extends(g, r.value.0) && |r.value.1| == |args|
    decreases args, 0
  {
    if args == [] then Success((g, []))
    else
      var (h, col) :- Evaluate(args[0], g, showDouble);
      var (k, cols) :- EvaluateAll(args[1..], h, showDouble);
      ExtendsTransitive(g, h, k);
      Success((k, [col] + cols))
  }

  /** The names of a list of variables. */
  function VariableNames(args: seq<DerivedData>): (r: seq<string>)
    requires forall i :: 0 <= i < |args| ==> args[i].Variable?
    ensures |r| == |args| && forall i :: 0 <= i < |args| ==> r[i] == args[i].name
  {
    if args == [] then []
    else
      assert forall i :: 1 <= i < |args| ==> args[i] == args[1..][i - 1];
      [args[0].name] + VariableNames(args[1..])
  }

  /** Variables change nothing: evaluating them names their columns, in order, on the same
      grid. */
  lemma {:induction false} VariablesName(args: seq<DerivedData>, g: DataGrid.DataGrid, showDouble: JavaNumber.Dbl -> string)
    requires forall i :: 0 <= i < |args| ==> args[i].Variable?
    ensures EvaluateAll(args, g, showDouble) == Success((g, VariableNames(args)))
  {
    if args != [] {
      VariablesName(args[1..], g, showDouble);
      assert Evaluate(args[0], g, showDouble) == Success((g, args[0].name));
    }
  }

  /** An unbound function cannot be evaluated: `ifeq` reports the missing arguments, the
      others dereference them. */
  lemma UnboundFails(fn: Fn, g: DataGrid.DataGrid, showDouble: JavaNumber.Dbl -> string)
    ensures Evaluate(Function(fn, false, []), g, showDouble).Failure?
  {
  }

  /** A constant is written into every row under its text, which names the result. */
  lemma ConstantFillsColumn(v: Value.Datum, g: DataGrid.DataGrid, showDouble: JavaNumber.Dbl -> string)
    ensures var r := Evaluate(Constant(v), g, showDouble);
            r.Success? && r.value.1 == DatumText(v, showDouble)
            && forall i :: 0 <= i < |g.rows| ==>
                 DataGrid.GetY(r.value.0.rows[i], r.value.1) == Some(ConstantValue(v))
  {
  }

  /** A function applied to the columns its arguments named. */
  function Apply(fn: Fn, g: DataGrid.DataGrid, cols: seq<string>): (r: Result<(DataGrid.DataGrid, string)>) {
    match fn
    case Ifeq =>
      if |cols| != 2 then Failure("IllegalStateException")
      else
        var name := IfeqName(cols[0], cols[1]);
        var rows :- IfeqRows(g.rows, cols[0], cols[1], name);
        Success((g.(rows := rows), name))
    case Or =>
      if |cols| != 2 then Failure("IllegalStateException")
      else
        var name := OrName(cols[0], cols[1]);
        Success((g.(rows := OrRows(g.rows, cols[0], cols[1], name)), name))
    case Find =>
      if |cols| != 3 then Failure("IllegalStateException")
      else
        var name := FindName(cols[0], cols[1], cols[2]);
        var m :- Scan(g.rows, cols[0], cols[1], cols[2], map[]);
        Success((g.(rows := FindRows(g.rows, m, name)), name))
  }

  /** Applying a function adds its result column and changes nothing else. */
  lemma ApplyExtends(fn: Fn, g: DataGrid.DataGrid, cols: seq<string>)
    ensures Apply(fn, g, cols).Success? ==> Extends(g, Apply(fn, g, cols).value.0)
  {
    if Apply(fn, g, cols).Success? {
      var h := Apply(fn, g, cols).value.0;
      var name := Apply(fn, g, cols).value.1;
      forall i | 0 <= i < |g.rows|
        ensures h.rows[i] == DataGrid.AddY(g.rows[i], name, DataGrid.GetY(h.rows[i], name))
      {
        match fn
        case Ifeq =>
        case Or =>
        case Find =>
      }
      AddedColumnExtends(g, h.rows, name);
    }
  }

  // ---------------------------------------------------------------------------
  // ifeq
  // ---------------------------------------------------------------------------

  /** The result column of `ifeq`. */
  function IfeqName(a: string, b: string): (r: string)
    ensures JavaText.StartsWith(r, "ifeq(" + a + ", ") && JavaText.EndsWith(r, ")")
  {
    "ifeq(" + a + ", " + b + ")"
  }

  /** `Integer` and `Double` payloads are numbers. */
  predicate IsNumber(p: Option<Value.Datum>) {
    p.Some? && (p.value.IntegerVal? || p.value.DoubleVal?)
  }

  /** `doubleValue()` of a number: an `Integer` (32 bits, so exactly representable) widens. */
  function AsDouble(p: Option<Value.Datum>): JavaNumber.Dbl
    requires IsNumber(p)
  {
    if p.value.IntegerVal? then JavaNumber.Finite(p.value.n as real) else p.value.d
  }

  /** The value written for a comparison: the left value with payload 1.0 or 0.0 and error 0.0. */
  function Flag(lhs: Value.Value, equal: bool): (r: Value.Value)
    ensures r.value == Some(Value.DoubleVal(JavaNumber.Finite(if equal then 1.0 else 0.0)))
    ensures r.error == Some(Value.DoubleVal(JavaNumber.Finite(0.0)))
    ensures r.(value := lhs.value, error := lhs.error) == lhs
  {
    Value.UpdateValueAndError(lhs, Some(JavaNumber.Finite(if equal then 1.0 else 0.0)), Some(JavaNumber.Finite(0.0)))
  }

  /** One row of `ifeq`: two numbers are compared as doubles, anything else with `equals`;
      a missing value on either side, or a null left payload, dereferences `null`. */
  function IfeqCell(row: DataGrid.Row, a: string, b: string): (r: Result<Value.Value>)
    ensures r.Success? <==> DataGrid.GetY(row, a).Some? && DataGrid.GetY(row, b).Some? && DataGrid.GetY(row, a).value.value.Some?
  {
    var lhs := DataGrid.GetY(row, a);
    var rhs := DataGrid.GetY(row, b);
    if lhs.None? || rhs.None? then Failure("NullPointerException")
    else
      var l := lhs.value.value;
      var r := rhs.value.value;
      if IsNumber(l) && IsNumber(r) then Success(Flag(lhs.value, AsDouble(l) == AsDouble(r)))
      else if l.None? then Failure("NullPointerException")
      else Success(Flag(lhs.value, l == r))
  }

  /** Every row with its comparison added, or the first row's error. */
  function IfeqRows(rows: seq<DataGrid.Row>, a: string, b: string, name: string): (r: Result<seq<DataGrid.Row>>)
    ensures r.Success? <==> forall i :: 0 <= i < |rows| ==> IfeqCell(rows[i], a, b).Success?
    ensures r.Success? ==> |r.value| == |rows|
    ensures r.Success? ==> forall i :: 0 <= i < |rows| ==>
              r.value[i] == DataGrid.AddY(rows[i], name, Some(IfeqCell(rows[i], a, b).value))
  {
    if rows == [] then Success([])
    else
      var v :- IfeqCell(rows[0], a, b);
      var rest :- IfeqRows(rows[1..], a, b, name);
      assert forall i :: 1 <= i < |rows| ==> rows[i] == rows[1..][i - 1];
      Success([DataGrid.AddY(rows[0], name, Some(v))] + rest)
  }

  /** An `Integer` and a `Double` of the same number are equal, as are two equal strings;
      a string never equals a number. */
  lemma IfeqMixedNumbers(row: DataGrid.Row, a: string, b: string)
    requires DataGrid.GetY(row, a).Some? && DataGrid.GetY(row, b).Some?
    requires DataGrid.GetY(row, a).value.value == Some(Value.IntegerVal(2))
    requires DataGrid.GetY(row, b).value.value == Some(Value.DoubleVal(JavaNumber.Finite(2.0)))
    ensures IfeqCell(row, a, b).Success?
    ensures IfeqCell(row, a, b).value.value == Some(Value.DoubleVal(JavaNumber.Finite(1.0)))
  {
  }

  /** The comparison `ifeq` makes on two payloads: numbers by their double values, anything
      else by equality. */
  predicate SameValue(l: Option<Value.Datum>, r: Option<Value.Datum>) {
    if IsNumber(l) && IsNumber(r) then AsDouble(l) == AsDouble(r) else l == r
  }

  /** Each row's flag is 1.0 exactly when the two payloads are the same value. */
  lemma IfeqFlags(row: DataGrid.Row, a: string, b: string)
    requires IfeqCell(row, a, b).Success?
    ensures var l := DataGrid.GetY(row, a).value.value;
            var r := DataGrid.GetY(row, b).value.value;
            IfeqCell(row, a, b).value.value == Some(Value.DoubleVal(JavaNumber.Finite(if SameValue(l, r) then 1.0 else 0.0)))
  {
  }

  /** Evaluating a bound `ifeq` of two variables: it succeeds when every row can be
      compared, and then each row holds its comparison under `ifeq(a, b)`. */
  lemma IfeqEvaluates(x: DerivedData, y: DerivedData, g: DataGrid.DataGrid, showDouble: JavaNumber.Dbl -> string)
    requires x.Variable? && y.Variable? && WellFormed(Function(Ifeq, true, [x, y]))
    ensures var r := Evaluate(Function(Ifeq, true, [x, y]), g, showDouble);
            (r.Success? <==> forall i :: 0 <= i < |g.rows| ==> IfeqCell(g.rows[i], x.name, y.name).Success?)
            && (r.Success? ==>
                  r.value.1 == IfeqName(x.name, y.name)
                  && forall i :: 0 <= i < |g.rows| ==>
                       DataGrid.GetY(r.value.0.rows[i], r.value.1) == Some(IfeqCell(g.rows[i], x.name, y.name).value))
  {
    VariablesName([x, y], g, showDouble);
    assert VariableNames([x, y]) == [x.name, y.name];
  }

  // ---------------------------------------------------------------------------
  // or
  // ---------------------------------------------------------------------------

  /** The result column of `or`. */
  function OrName(a: string, b: string): (r: string)
    ensures JavaText.StartsWith(r, "or(" + a + ", ") && JavaText.EndsWith(r, ")")
  {
    "or(" + a + ", " + b + ")"
  }

  /** The value `or` picks for a row. */
  function OrCell(row: DataGrid.Row, a: string, b: string): (v: Option<Value.Value>)
    ensures DataGrid.GetY(row, a).Some? && DataGrid.GetY(row, a).value.value.Some? ==> v == DataGrid.GetY(row, a)
    ensures DataGrid.GetY(row, a).None? || DataGrid.GetY(row, a).value.value.None? ==> v == DataGrid.GetY(row, b)
  {
    var first := DataGrid.GetY(row, a);
    if first.None? || first.value.value.None? then DataGrid.GetY(row, b) else first
  }

  /** Every row with `or`'s choice added. */
  function OrRows(rows: seq<DataGrid.Row>, a: string, b: string, name: string): (r: seq<DataGrid.Row>)
    ensures |r| == |rows|
    ensures forall i :: 0 <= i < |rows| ==> r[i] == DataGrid.AddY(rows[i], name, OrCell(rows[i], a, b))
  {
    seq(|rows|, i requires 0 <= i < |rows| => DataGrid.AddY(rows[i], name, OrCell(rows[i], a, b)))
  }

  /** Evaluating a bound `or` of two variables: each row gets the first variable's value
      unless it is absent or null, and then the second's. */
  lemma OrEvaluates(x: DerivedData, y: DerivedData, g: DataGrid.DataGrid, showDouble: JavaNumber.Dbl -> string)
    requires x.Variable? && y.Variable?
    ensures var r := Evaluate(Function(Or, true, [x, y]), g, showDouble);
            r.Success? && r.value.1 == OrName(x.name, y.name)
            && forall i :: 0 <= i < |g.rows| ==>
                 DataGrid.GetY(r.value.0.rows[i], r.value.1) == OrCell(g.rows[i], x.name, y.name)
  {
    VariablesName([x, y], g, showDouble);
    assert VariableNames([x, y]) == [x.name, y.name];
  }

  // ---------------------------------------------------------------------------
  // find
  // ---------------------------------------------------------------------------

  /** The result column of `find`. */
  function FindName(v: string, p: string, c: string): (r: string)
    ensures JavaText.StartsWith(r, "find(" + v + ", " + p + ", ") && JavaText.EndsWith(r, ")")
  {
    "find(" + v + ", " + p + ", " + c + ")"
  }

  /** Whether a row's property value is the text `c`. A row without the property does not
      match; one whose property has a null payload dereferences `null`. */
  function Matches(row: DataGrid.Row, p: string, c: string): (r: Result<bool>)
    ensures r.Failure? <==> DataGrid.GetY(row, p).Some? && DataGrid.GetY(row, p).value.value.None?
  {
    var pv := DataGrid.GetY(row, p);
    if pv.None? then Success(false)
    else if pv.value.value.None? then Failure("NullPointerException")
    else Success(pv.value.value.value == Value.StringVal(c))
  }

  /** The row matches and has x value `x`. */
  predicate Selects(row: DataGrid.Row, x: Option<Value.Value>, p: string, c: string) {
    row.x == x && Matches(row, p, c) == Success(true)
  }

  /** The first row with x value `x` that matches. */
  function FirstMatch(rows: seq<DataGrid.Row>, x: Option<Value.Value>, p: string, c: string): (k: Option<nat>)
    ensures k.Some? ==> k.value < |rows| && Selects(rows[k.value], x, p, c)
    ensures forall j :: 0 <= j < |rows| && (k.None? || j < k.value) ==> !Selects(rows[j], x, p, c)
  {
    if rows == [] then None
    else if Selects(rows[0], x, p, c) then Some(0)
    else
      var k := FirstMatch(rows[1..], x, p, c);
      assert forall j :: 1 <= j < |rows| ==> rows[j] == rows[1..][j - 1];
      if k.None? then None else Some(k.value + 1)
  }

  /** The first pass of `find`: for each x value not yet seen to match, a matching row
      records its selected value. */
  function Scan(rows: seq<DataGrid.Row>, v: string, p: string, c: string,
                m: map<Option<Value.Value>, Option<Value.Value>>): (r: Result<map<Option<Value.Value>, Option<Value.Value>>>)
    decreases |rows|
  {
    if rows == [] then Success(m)
    else
      var row := rows[0];
      if row.x in m then Scan(rows[1..], v, p, c, m)
      else
        var hit :- Matches(row, p, c);
        if hit then Scan(rows[1..], v, p, c, m[row.x := DataGrid.GetY(row, v)])
        else Scan(rows[1..], v, p, c, m)
  }

  /** What the first pass records: the entries it started with, and for every other x
      value the selected value of the first row with that x that matches, if any. */
  lemma {:induction false} ScanSelects(rows: seq<DataGrid.Row>, v: string, p: string, c: string,
                                       m: map<Option<Value.Value>, Option<Value.Value>>, x: Option<Value.Value>)
    requires Scan(rows, v, p, c, m).Success?
    ensures var out := Scan(rows, v, p, c, m).value;
            (x in m ==> x in out && out[x] == m[x])
            && (x !in m ==> (x in out <==> FirstMatch(rows, x, p, c).Some?))
            && (x !in m && x in out ==> out[x] == DataGrid.GetY(rows[FirstMatch(rows, x, p, c).value], v))
    decreases |rows|
  {
    if rows != [] {
      var row := rows[0];
      var tail := rows[1..];
      var k := FirstMatch(tail, x, p, c);
      if row.x in m {
        ScanSelects(tail, v, p, c, m, x);
        if x !in m {
          assert !Selects(row, x, p, c);
        }
      } else if Matches(row, p, c).value {
        var m' := m[row.x := DataGrid.GetY(row, v)];
        ScanSelects(tail, v, p, c, m', x);
      } else {
        ScanSelects(tail, v, p, c, m, x);
        assert !Selects(row, x, p, c);
      }
    }
  }

  /** The second pass of `find`: every row gets the value recorded for its x, or null. */
  function FindRows(rows: seq<DataGrid.Row>, m: map<Option<Value.Value>, Option<Value.Value>>, name: string): (r: seq<DataGrid.Row>)
    ensures |r| == |rows|
    ensures forall i :: 0 <= i < |rows| ==> r[i] == DataGrid.AddY(rows[i], name, Recorded(m, rows[i].x))
  {
    seq(|rows|, i requires 0 <= i < |rows| => DataGrid.AddY(rows[i], name, Recorded(m, rows[i].x)))
  }

  /** `Map.get`: null for an absent key. */
  function Recorded(m: map<Option<Value.Value>, Option<Value.Value>>, x: Option<Value.Value>): Option<Value.Value> {
    if x in m then m[x] else None
  }

  /** `find` applied to its columns: each row receives the selected value of the first row
      with the same x value whose property is the constant's text, or null when no row
      with that x matches. */
  lemma FindSelects(g: DataGrid.DataGrid, v: string, p: string, c: string, i: nat)
    requires Apply(Find, g, [v, p, c]).Success? && i < |g.rows|
    ensures var h := Apply(Find, g, [v, p, c]).value;
            var k := FirstMatch(g.rows, g.rows[i].x, p, c);
            h.1 == FindName(v, p, c)
            && DataGrid.GetY(h.0.rows[i], h.1) == (if k.Some? then DataGrid.GetY(g.rows[k.value], v) else None)
  {
    ScanSelects(g.rows, v, p, c, map[], g.rows[i].x);
  }
}
