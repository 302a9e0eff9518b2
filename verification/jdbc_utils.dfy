/** The static helpers of `JdbcUtils` that only choose tables and build text: the table of a
    metadata type or of a restriction category, and the `WHERE` fragment that limits a query
    to the sub-runs every restriction matched. The ids each restriction matches come from a
    query that is not modelled; they are inputs here. */
module JdbcUtils {
  import opened Wrappers
  import opened Collections
  import JavaText
  import MetaData
  import JdbcTable
  import JdbcMapping

  // ---------------------------------------------------------------------------
  // Tables of types and categories
  // ---------------------------------------------------------------------------

  /** `typeToTable`: each metadata type is stored in the table of the same name. */
  function TypeToTable(t: MetaData.Type): (r: JdbcTable.Table)
    ensures TableToType(r) == Some(t)
  {
    match t
    case Application => JdbcTable.Application
    case Compiler => JdbcTable.Compiler
    case Machine => JdbcTable.Machine
    case Mpi => JdbcTable.Mpi
    case OperatingSystem => JdbcTable.OperatingSystem
    case Processor => JdbcTable.Processor
  }

  /** The metadata type a table stores, for the six dimension tables. */
  function TableToType(t: JdbcTable.Table): Option<MetaData.Type> {
    match t
    case Application => Some(MetaData.Application)
    case Compiler => Some(MetaData.Compiler)
    case Machine => Some(MetaData.Machine)
    case Mpi => Some(MetaData.Mpi)
    case OperatingSystem => Some(MetaData.OperatingSystem)
    case Processor => Some(MetaData.Processor)
    case _ => None
  }

  /** No two types share a table. */
  lemma TypeToTableInjective(a: MetaData.Type, b: MetaData.Type)
    requires TypeToTable(a) == TypeToTable(b)
    ensures a == b
  {
    assert Some(a) == TableToType(TypeToTable(a)) == TableToType(TypeToTable(b)) == Some(b);
  }

  /** The tables reached from types are exactly the six dimension tables. */
  lemma TypeTablesAreDimensions(t: JdbcTable.Table)
    ensures TableToType(t).Some? <==> exists m :: TypeToTable(m) == t
  {
    if TableToType(t).Some? {
      assert TypeToTable(TableToType(t).value) == t;
    }
  }

  /** The kinds of thing a restriction can select on. */
  datatype Category = Application | Compiler | Machine | Mpi | OperatingSystem | Parameter | Processor | Result | Run

  /** `categoryToTable`: each of the nine categories has its own table. */
  function CategoryToTable(c: Category): (r: JdbcTable.Table)
    ensures TableToCategory(r) == Some(c)
  {
    match c
    case Application => JdbcTable.Application
    case Compiler => JdbcTable.Compiler
    case Machine => JdbcTable.Machine
    case Mpi => JdbcTable.Mpi
    case OperatingSystem => JdbcTable.OperatingSystem
    case Parameter => JdbcTable.Parameter
    case Processor => JdbcTable.Processor
    case Result => JdbcTable.Result
    case Run => JdbcTable.Run
  }

  /** The category whose table is `t`, if any. */
  function TableToCategory(t: JdbcTable.Table): Option<Category> {
    match t
    case Application => Some(Application)
    case Compiler => Some(Compiler)
    case Machine => Some(Machine)
    case Mpi => Some(Mpi)
    case OperatingSystem => Some(OperatingSystem)
    case Parameter => Some(Parameter)
    case Processor => Some(Processor)
    case Result => Some(Result)
    case Run => Some(Run)
    case _ => None
  }

  /** No two categories share a table. */
  lemma CategoryToTableInjective(a: Category, b: Category)
    requires CategoryToTable(a) == CategoryToTable(b)
    ensures a == b
  {
    assert Some(a) == TableToCategory(CategoryToTable(a)) == TableToCategory(CategoryToTable(b)) == Some(b);
  }

  /** The category of the same name as a metadata type. */
  function TypeCategory(t: MetaData.Type): Category {
    match t
    case Application => Application
    case Compiler => Compiler
    case Machine => Machine
    case Mpi => Mpi
    case OperatingSystem => OperatingSystem
    case Processor => Processor
  }

  /** The two switches agree: a metadata type and its category name the same table. */
  lemma CategoryAgreesWithType(t: MetaData.Type)
    ensures CategoryToTable(TypeCategory(t)) == TypeToTable(t)
    ensures TableToCategory(TypeToTable(t)) == Some(TypeCategory(t))
  {
  }

  // ---------------------------------------------------------------------------
  // The sub-run restriction
  // ---------------------------------------------------------------------------

  /** `x` was matched by every restriction. */
  predicate InAll(x: int, rs: seq<seq<int>>) {
    forall k :: 0 <= k < |rs| ==> x in rs[k]
  }

  /** `retainAll`: the ids of `ids` that `other` also matched, in the same order. */
  function Retain(ids: seq<int>, other: seq<int>): (r: seq<int>)
    ensures forall x :: x in r <==> x in ids && x in other
    ensures Distinct(ids) ==> Distinct(r)
    decreases |ids|
  {
    if ids == [] then []
    else
      var p := Retain(ids[..|ids| - 1], other);
      var x := ids[|ids| - 1];
      assert ids == ids[..|ids| - 1] + [x];
      if x in other then p + [x] else p
  }

  /** The loop over the restrictions: the first one's ids, then each later one's kept. */
  method CommonIds(rs: seq<seq<int>>) returns (ids: seq<int>)
    ensures Distinct(ids)
    ensures forall x :: x in ids <==> rs != [] && InAll(x, rs)
  {
    ids := [];
    var first := true;
    var i := 0;
    while i < |rs|
      invariant 0 <= i <= |rs|
      invariant first <==> i == 0
      invariant Distinct(ids)
      invariant forall x :: x in ids <==> i > 0 && InAll(x, rs[..i])
    {
      if first {
        ids := Dedup(rs[i]);
      } else {
        ids := Retain(ids, rs[i]);
      }
      first := false;
      InAllExtend(rs, i);
      i := i + 1;
    }
    assert rs[..i] == rs;
  }

  /** Matching one more restriction. */
  lemma InAllExtend(rs: seq<seq<int>>, i: nat)
    requires i < |rs|
    ensures forall x :: InAll(x, rs[..i + 1]) <==> InAll(x, rs[..i]) && x in rs[i]
  {
    assert forall k :: 0 <= k < i + 1 ==> rs[..i + 1][k] == rs[k];
    assert forall k :: 0 <= k < i ==> rs[..i][k] == rs[k];
  }

  /** The ids of the restrictions as the functional counterpart of `CommonIds`: the first
      restriction's ids, deduplicated, kept only where every other restriction matched too. */
  function Common(rs: seq<seq<int>>): (ids: seq<int>)
    ensures Distinct(ids)
    ensures forall x :: x in ids <==> rs != [] && InAll(x, rs)
  {
    if rs == [] then []
    else
      var ids := RetainAll(Dedup(rs[0]), rs[1..]);
      assert forall x :: InAll(x, rs) <==> x in rs[0] && InAll(x, rs[1..]) by {
        forall x ensures InAll(x, rs) <==> x in rs[0] && InAll(x, rs[1..]) {
          InAllCons(x, rs);
        }
      }
      ids
  }

  /** `Retain` once for each restriction of `rs`. */
  function RetainAll(ids: seq<int>, rs: seq<seq<int>>): (r: seq<int>)
    ensures forall x :: x in r <==> x in ids && InAll(x, rs)
    ensures Distinct(ids) ==> Distinct(r)
    decreases |rs|
  {
    if rs == [] then ids
    else
      var r := RetainAll(Retain(ids, rs[0]), rs[1..]);
      assert forall x :: InAll(x, rs) <==> x in rs[0] && InAll(x, rs[1..]) by {
        forall x ensures InAll(x, rs) <==> x in rs[0] && InAll(x, rs[1..]) {
          InAllCons(x, rs);
        }
      }
      r
  }

  /** Matching every restriction is matching the first and every later one. */
  lemma InAllCons(x: int, rs: seq<seq<int>>)
    requires rs != []
    ensures InAll(x, rs) <==> x in rs[0] && InAll(x, rs[1..])
  {
    if x in rs[0] && InAll(x, rs[1..]) {
      forall k | 0 <= k < |rs|
        ensures x in rs[k]
      {
        if k > 0 {
          assert rs[k] == rs[1..][k - 1];
        }
      }
    }
    if InAll(x, rs) {
      forall k | 0 <= k < |rs| - 1
        ensures x in rs[1..][k]
      {
        assert rs[1..][k] == rs[k + 1];
      }
    }
  }

  /** What a `WHERE` fragment lets through: every sub-run, none, or those among `ids`. */
  datatype Where = Everything | Nothing | IdIn(ids: seq<int>)

  /** The fragment's text. The id list is bound through `?` markers. */
  function WhereText(w: Where): string {
    match w
    case Everything => "1 = 1"
    case Nothing => "1 = 0"
    case IdIn(ids) => JdbcTable.Reference(JdbcTable.SubRun) + ".ID IN (" + JavaText.Join(JdbcMapping.Marks(|ids|), ", ") + ")"
  }

  /** The values the fragment binds, in marker order. */
  function WhereParams(w: Where): seq<int> {
    if w.IdIn? then w.ids else []
  }

  /** Whether sub-run `id` passes the fragment. */
  predicate Admits(w: Where, id: int) {
    match w
    case Everything => true
    case Nothing => false
    case IdIn(ids) => id in ids
  }

  /** Each fragment has exactly one `?` per value it binds. */
  lemma WhereMarks(w: Where)
    ensures JavaText.CountOf('?', WhereText(w)) == |WhereParams(w)|
  {
    match w
    case Everything =>
      JavaText.CountOfAbsent('?', "1 = 1");
    case Nothing =>
      JavaText.CountOfAbsent('?', "1 = 0");
    case IdIn(ids) =>
      var head := JdbcTable.Reference(JdbcTable.SubRun) + ".ID IN (";
      var marks := JavaText.Join(JdbcMapping.Marks(|ids|), ", ");
      assert WhereText(w) == head + marks + ")";
      JavaText.CountOfAbsent('?', head);
      JavaText.CountOfAbsent('?', ")");
      JdbcMapping.MarksCount(|ids|);
      JavaText.CountOfAppend('?', head, marks);
      JavaText.CountOfAppend('?', head + marks, ")");
  }

  /** `subRunRestriction` as written: no restrictions, or restrictions with no id in common,
      leave every sub-run in. */
  function SubRunWhereAsWritten(restrictions: Option<seq<seq<int>>>): (w: Where)
    ensures w.Nothing? == false
  {
    if restrictions.None? then Everything
    else
      var ids := Common(restrictions.value);
      if ids == [] then Everything else IdIn(ids)
  }

  /** Two restrictions that share no sub-run: the fragment as written lets sub-run 1 through
      although the second restriction did not match it. */
  lemma DisjointRestrictionsAdmitAll()
    ensures SubRunWhereAsWritten(Some([[1], [2]])) == Everything
    ensures Admits(SubRunWhereAsWritten(Some([[1], [2]])), 1) && !InAll(1, [[1], [2]])
  {
    var rs := [[1], [2]];
    assert !InAll(1, rs) by { assert 1 !in rs[1]; }
    assert !InAll(2, rs) by { assert 2 !in rs[0]; }
  }

  /** The restriction with an empty intersection selecting nothing: no restrictions admit
      every sub-run; otherwise only those that every restriction matched. */
  function SubRunWhere(restrictions: Option<seq<seq<int>>>): (w: Where)
    ensures forall id :: Admits(w, id) <==> restrictions.None? || restrictions.value == [] || InAll(id, restrictions.value)
  {
    if restrictions.None? || restrictions.value == [] then Everything
    else
      var ids := Common(restrictions.value);
      if ids == [] then Nothing else IdIn(ids)
  }

  /** The two agree whenever the restrictions have an id in common or there are none. */
  lemma SubRunWhereAgrees(restrictions: Option<seq<seq<int>>>)
    requires restrictions.None? || restrictions.value == [] || Common(restrictions.value) != []
    ensures SubRunWhere(restrictions) == SubRunWhereAsWritten(restrictions)
  {
  }

  /** `subRunRestriction(restrictions, sqlParams)`: the fragment, with its ids appended to the
      parameters in marker order; `asWritten` picks the fragment as written, the corrected one
      otherwise. Either way the new parameters are the ids every restriction matched, each
      once, and only the text for an empty intersection differs. */
  function SubRunRestriction(restrictions: Option<seq<seq<int>>>, params: seq<int>, asWritten: bool): (r: (string, seq<int>))
    ensures restrictions.None? ==> r == ("1 = 1", params)
    ensures |r.1| >= |params| && r.1[..|params|] == params
    ensures JavaText.CountOf('?', r.0) == |r.1| - |params|
    ensures Distinct(r.1[|params|..])
    ensures forall x :: x in r.1[|params|..] <==> restrictions.Some? && restrictions.value != [] && InAll(x, restrictions.value)
    ensures asWritten ==> (r.0 == "1 = 1" <==> |r.1| == |params|)
    ensures !asWritten ==> (r.0 == "1 = 1" <==> restrictions.None? || restrictions.value == [])
    ensures !asWritten ==> (r.0 == "1 = 0" <==> restrictions.Some? && restrictions.value != [] && |r.1| == |params|)
  {
    var w := if asWritten then SubRunWhereAsWritten(restrictions) else SubRunWhere(restrictions);
    WhereMarks(w);
    var r := (WhereText(w), params + WhereParams(w));
    assert r.1[|params|..] == WhereParams(w);
    assert restrictions.None? ==> r.1 == params;
    assert r.0 == "1 = 1" <==> w.Everything? by { WhereTexts(w); }
    assert r.0 == "1 = 0" <==> w.Nothing? by { WhereTexts(w); }
    r
  }

  /** The three kinds of fragment have different texts: a list of ids ends in `)`. */
  lemma WhereTexts(w: Where)
    ensures WhereText(w) == "1 = 1" <==> w.Everything?
    ensures WhereText(w) == "1 = 0" <==> w.Nothing?
  {
    if w.IdIn? {
      var head := JdbcTable.Reference(JdbcTable.SubRun) + ".ID IN (" + JavaText.Join(JdbcMapping.Marks(|w.ids|), ", ");
      var t := WhereText(w);
      assert t == head + ")";
      assert t[|t| - 1] == ')';
    }
  }

  /** Where the restrictions share an id, or there are none, the written and the corrected
      restriction give the same text and parameters. */
  lemma SubRunRestrictionAgrees(restrictions: Option<seq<seq<int>>>, params: seq<int>)
    requires restrictions.None? || restrictions.value == [] || Common(restrictions.value) != []
    ensures SubRunRestriction(restrictions, params, true) == SubRunRestriction(restrictions, params, false)
  {
    SubRunWhereAgrees(restrictions);
  }
}
