/** One data set of a run: its parameters and its timing results, both in file order. */
module RunData {
  import opened Wrappers
  import Value

  datatype RunData = RunData(parameters: seq<Value.Value>, results: seq<Value.Value>)

  /** `addParameter`: appends at the end; the results are untouched. */
  function AddParameter(d: RunData, p: Value.Value): (r: RunData)
    ensures |r.parameters| == |d.parameters| + 1 && r.parameters[|d.parameters|] == p
    ensures r.parameters[..|d.parameters|] == d.parameters && r.results == d.results
  {
    d.(parameters := d.parameters + [p])
  }

  /** `addResult`: appends at the end; the parameters are untouched. */
  function AddResult(d: RunData, v: Value.Value): (r: RunData)
    ensures |r.results| == |d.results| + 1 && r.results[|d.results|] == v
    ensures r.results[..|d.results|] == d.results && r.parameters == d.parameters
  {
    d.(results := d.results + [v])
  }

  /** `updateParameterName(i, name)`: renames parameter `i` only. An index outside the
      list is an `IndexOutOfBoundsException`. */
  function UpdateParameterName(d: RunData, i: int, name: string): (r: Result<RunData>)
    ensures r.Success? <==> 0 <= i < |d.parameters|
    ensures r.Success? ==> |r.value.parameters| == |d.parameters| && r.value.results == d.results
    ensures r.Success? ==> r.value.parameters[i] == Value.UpdateName(d.parameters[i], name)
    ensures r.Success? ==> forall j :: 0 <= j < |d.parameters| && j != i ==>
                             r.value.parameters[j] == d.parameters[j]
  {
    if 0 <= i < |d.parameters| then
      Success(d.(parameters := d.parameters[i := Value.UpdateName(d.parameters[i], name)]))
    else Failure("IndexOutOfBoundsException")
  }

  /** The first value in `vs` with the given name. */
  function FirstNamed(vs: seq<Value.Value>, name: string): (r: Option<Value.Value>)
    ensures r.None? <==> forall j :: 0 <= j < |vs| ==> vs[j].name != name
  {
    if vs == [] then None
    else if vs[0].name == name then Some(vs[0])
    else
      var r := FirstNamed(vs[1..], name);
      assert forall j :: 1 <= j < |vs| ==> vs[j] == vs[1..][j - 1];
      r
  }

  /** The value found is the one at the first position holding the name. */
  lemma {:induction false} FirstNamedIsFirst(vs: seq<Value.Value>, name: string)
    requires FirstNamed(vs, name).Some?
    ensures exists i :: 0 <= i < |vs| && vs[i] == FirstNamed(vs, name).value
                        && vs[i].name == name
                        && forall j :: 0 <= j < i ==> vs[j].name != name
  {
    if vs[0].name != name {
      FirstNamedIsFirst(vs[1..], name);
      var i :| 0 <= i < |vs[1..]| && vs[1..][i] == FirstNamed(vs[1..], name).value
                && vs[1..][i].name == name
                && forall j :: 0 <= j < i ==> vs[1..][j].name != name;
      assert vs[i + 1] == vs[1..][i];
      assert forall j :: 1 <= j < i + 1 ==> vs[j] == vs[1..][j - 1];
    } else {
      assert vs[0] == FirstNamed(vs, name).value;
    }
  }

  /** `getParameter`: the first parameter with the name, or null when there is none. */
  function GetParameter(d: RunData, name: string): (r: Option<Value.Value>)
    ensures r.None? <==> forall j :: 0 <= j < |d.parameters| ==> d.parameters[j].name != name
    ensures r.Some? ==> r.value in d.parameters && r.value.name == name
  {
    var r := FirstNamed(d.parameters, name);
    if r.Some? then
      FirstNamedIsFirst(d.parameters, name);
      r
    else r
  }

  lemma {:induction false} FirstNamedAppend(vs: seq<Value.Value>, p: Value.Value, name: string)
    ensures FirstNamed(vs + [p], name) ==
      if FirstNamed(vs, name).Some? then FirstNamed(vs, name)
      else if p.name == name then Some(p) else None
  {
    if vs == [] {
      assert vs + [p] == [p];
      assert [p][1..] == [];
    } else {
      assert (vs + [p])[1..] == vs[1..] + [p];
      FirstNamedAppend(vs[1..], p, name);
    }
  }

  /** A parameter added later is only found when no earlier one has its name. */
  lemma GetParameterAfterAdd(d: RunData, p: Value.Value, name: string)
    ensures GetParameter(AddParameter(d, p), name) ==
      if GetParameter(d, name).Some? then GetParameter(d, name)
      else if p.name == name then Some(p) else None
  {
    FirstNamedAppend(d.parameters, p, name);
  }
}
