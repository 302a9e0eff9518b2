/** A run: one loaded performance file with its identity, dates, owner, metadata of up
    to six types, data sets and compiler flags. Dates are milliseconds since the epoch. */
module Run {
  import opened Wrappers
  import JavaText
  import MetaData
  import MetaRecord
  import RunData

  type Date = JavaText.Date

  datatype Run = Run(
    runId: Option<string>,
    runDate: Date,
    insertionDate: Option<Date>,
    meta: map<MetaData.Type, MetaRecord.Meta>,
    creator: Option<string>,
    restricted: bool,
    dataSets: seq<RunData.RunData>,
    file: Option<string>,
    tag: Option<string>,
    flags: seq<string>)

  /** True when some non-null entry of `ms` has type `t`. */
  predicate HasType(ms: seq<Option<MetaRecord.Meta>>, t: MetaData.Type) {
    exists i :: 0 <= i < |ms| && ms[i].Some? && MetaRecord.TypeOf(ms[i].value) == t
  }

  /** The metadata keyed by type: null entries are skipped and a later entry replaces an
      earlier one of the same type. */
  function MetaMap(ms: seq<Option<MetaRecord.Meta>>): (m: map<MetaData.Type, MetaRecord.Meta>)
    ensures forall t :: t in m <==> HasType(ms, t)
    ensures Filed(m)
  {
    if ms == [] then map[]
    else
      var init := ms[..|ms| - 1];
      var m := MetaMap(init);
      assert forall i :: 0 <= i < |init| ==> init[i] == ms[i];
      match ms[|ms| - 1]
      case None => m
      case Some(x) => m[MetaRecord.TypeOf(x) := x]
  }

  /** A later entry of a type replaces an earlier one: the map holds, for each type, the
      last non-null entry of that type. */
  lemma {:induction false} MetaMapLastWins(ms: seq<Option<MetaRecord.Meta>>)
    ensures forall t :: t in MetaMap(ms) ==> LastOfType(ms, t, MetaMap(ms)[t])
  {
    if ms != [] {
      var init := ms[..|ms| - 1];
      MetaMapLastWins(init);
      var m := MetaMap(init);
      var n := MetaMap(ms);
      forall t | t in n ensures LastOfType(ms, t, n[t]) {
        if ms[|ms| - 1].Some? && MetaRecord.TypeOf(ms[|ms| - 1].value) == t {
          assert ms[|ms| - 1] == Some(n[t]);
        } else {
          assert n[t] == m[t];
          var i :| 0 <= i < |init| && init[i] == Some(m[t])
                   && forall j :: i < j < |init| && init[j].Some? ==> MetaRecord.TypeOf(init[j].value) != t;
          assert ms[i] == Some(n[t]);
          forall j | i < j < |ms| && ms[j].Some? ensures MetaRecord.TypeOf(ms[j].value) != t {
            if j < |init| {
              assert init[j] == ms[j];
            }
          }
        }
      }
    }
  }

  /** Every record of `m` is filed under its own type. */
  predicate Filed(m: map<MetaData.Type, MetaRecord.Meta>) {
    forall t :: t in m ==> MetaRecord.TypeOf(m[t]) == t
  }

  /** `x` is the last non-null entry of `ms` with type `t`. */
  predicate LastOfType(ms: seq<Option<MetaRecord.Meta>>, t: MetaData.Type, x: MetaRecord.Meta) {
    exists i :: 0 <= i < |ms| && ms[i] == Some(x)
      && forall j :: i < j < |ms| && ms[j].Some? ==> MetaRecord.TypeOf(ms[j].value) != t
  }

  /** `metaMap.values()`: an `EnumMap` lists its records in type order. A type set to
      null by `setMetaData` gives a null entry, which the constructor skips. */
  function Values(m: map<MetaData.Type, MetaRecord.Meta>): (ms: seq<Option<MetaRecord.Meta>>)
    ensures |ms| == |MetaData.Types|
    ensures forall t :: t in m <==> ms[MetaData.Ordinal(t)].Some?
    ensures forall t :: t in m ==> ms[MetaData.Ordinal(t)] == Some(m[t])
  {
    seq(|MetaData.Types|, i requires 0 <= i < |MetaData.Types| =>
      if MetaData.Types[i] in m then Some(m[MetaData.Types[i]]) else None)
  }

  /** `x` is the record of `m` filed under the latest type, in `EnumMap` order, among
      those whose record has type `t`. */
  predicate Latest(m: map<MetaData.Type, MetaRecord.Meta>, t: MetaData.Type, x: MetaRecord.Meta) {
    exists k :: k in m && m[k] == x
      && forall k' :: k' in m && MetaRecord.TypeOf(m[k']) == t ==> MetaData.Ordinal(k') <= MetaData.Ordinal(k)
  }

  /** The metadata map that a copy made through the main constructor holds: every record
      filed again under its own type, a later type's record winning over an earlier one. */
  function Refile(m: map<MetaData.Type, MetaRecord.Meta>): (n: map<MetaData.Type, MetaRecord.Meta>)
    ensures Filed(n)
    ensures forall t :: t in n <==> exists k :: k in m && MetaRecord.TypeOf(m[k]) == t
    ensures forall t :: t in n ==> Latest(m, t, n[t])
    ensures Filed(m) ==> n == m
  {
    RefileProperties(m);
    MetaMap(Values(m))
  }

  lemma RefileProperties(m: map<MetaData.Type, MetaRecord.Meta>)
    ensures var n := MetaMap(Values(m));
      && (forall t :: t in n <==> exists k :: k in m && MetaRecord.TypeOf(m[k]) == t)
      && (forall t :: t in n ==> Latest(m, t, n[t]))
      && (Filed(m) ==> n == m)
  {
    RefileKeys(m);
    RefileLatest(m);
    var n := MetaMap(Values(m));
    if Filed(m) {
      forall t | t in n ensures t in m && n[t] == m[t] {
        assert Latest(m, t, n[t]);
        var k :| k in m && m[k] == n[t];
      }
      forall t | t in m ensures t in n {
        assert MetaRecord.TypeOf(m[t]) == t;
      }
    }
  }

  lemma RefileKeys(m: map<MetaData.Type, MetaRecord.Meta>)
    ensures forall t :: t in MetaMap(Values(m)) <==> exists k :: k in m && MetaRecord.TypeOf(m[k]) == t
  {
    var ms := Values(m);
    forall t ensures HasType(ms, t) <==> exists k :: k in m && MetaRecord.TypeOf(m[k]) == t {
      if HasType(ms, t) {
        var i :| 0 <= i < |ms| && ms[i].Some? && MetaRecord.TypeOf(ms[i].value) == t;
        var k := MetaData.Types[i];
        MetaData.TypeTable();
        assert MetaData.Ordinal(k) == i;
      }
      if exists k :: k in m && MetaRecord.TypeOf(m[k]) == t {
        var k :| k in m && MetaRecord.TypeOf(m[k]) == t;
        assert ms[MetaData.Ordinal(k)].Some?;
      }
    }
  }

  lemma RefileLatest(m: map<MetaData.Type, MetaRecord.Meta>)
    ensures forall t :: t in MetaMap(Values(m)) ==> Latest(m, t, MetaMap(Values(m))[t])
  {
    var ms := Values(m);
    var n := MetaMap(ms);
    MetaMapLastWins(ms);
    forall t | t in n ensures Latest(m, t, n[t])
    {
      var i :| 0 <= i < |ms| && ms[i] == Some(n[t])
               && forall j :: i < j < |ms| && ms[j].Some? ==> MetaRecord.TypeOf(ms[j].value) != t;
      var k := MetaData.Types[i];
      MetaData.TypeTable();
      assert MetaData.Ordinal(k) == i;
      forall k' | k' in m && MetaRecord.TypeOf(m[k']) == t ensures MetaData.Ordinal(k') <= i {
        assert ms[MetaData.Ordinal(k')] == Some(m[k']);
      }
      assert k in m && m[k] == n[t];
    }
  }

  /** The main constructor. The run date is cloned, so a null run date is a
      `NullPointerException`; there are no data sets or flags yet. */
  function New(runId: Option<string>, runDate: Option<Date>, insertionDate: Option<Date>,
               metaData: seq<Option<MetaRecord.Meta>>, creator: Option<string>,
               restricted: bool, file: Option<string>, tag: Option<string>): (r: Result<Run>)
    ensures r.Success? <==> runDate.Some?
    ensures r.Success? ==> r.value.runDate == runDate.value && r.value.runId == runId
    ensures r.Success? ==> r.value.meta == MetaMap(metaData)
    ensures r.Success? ==> r.value.dataSets == [] && r.value.flags == []
  {
    if runDate.None? then Failure("NullPointerException")
    else Success(Run(runId, runDate.value, insertionDate, MetaMap(metaData), creator,
                     restricted, [], file, tag, []))
  }

  /** The constructor for a freshly loaded file: no insertion date, creator, tag or
      metadata, not restricted, and the given flags in order. */
  function NewLoaded(runId: Option<string>, runDate: Option<Date>, file: Option<string>,
                     flags: seq<string>): (r: Result<Run>)
    ensures r.Success? <==> runDate.Some?
    ensures r.Success? ==> var v := r.value;
      v.insertionDate.None? && v.creator.None? && v.tag.None? && !v.restricted
      && v.meta == map[] && v.flags == flags && v.file == file && v.runId == runId
      && v.runDate == runDate.value && v.dataSets == []
  {
    var r :- New(runId, runDate, None, [], None, false, file, None);
    Success(r.(flags := r.flags + flags))
  }

  /** `isComplete`: the run date, insertion date, creator, run id and file are non-null
      and metadata of all six types is present. */
  predicate IsComplete(r: Run) {
    r.insertionDate.Some? && r.creator.Some? && r.runId.Some? && r.file.Some?
    && forall i :: 0 <= i < |MetaData.Types| ==> MetaData.Types[i] in r.meta
  }

  lemma IsCompleteMeaning(r: Run)
    ensures IsComplete(r) <==>
      r.insertionDate.Some? && r.creator.Some? && r.runId.Some? && r.file.Some?
      && forall t: MetaData.Type :: t in r.meta
  {
    MetaData.TypeTable();
    if IsComplete(r) {
      forall t: MetaData.Type ensures t in r.meta {
        assert MetaData.Types[MetaData.Ordinal(t)] == t;
      }
    }
  }

  /** `update(creator, restricted, tag)`: a copy with those three fields replaced, built
      through the main constructor from `metaMap.values()`, so the metadata is filed again
      under each record's own type; the data sets and flags are carried over. */
  function Update(r: Run, creator: Option<string>, restricted: bool, tag: Option<string>): (u: Run)
    ensures u.creator == creator && u.restricted == restricted && u.tag == tag
    ensures u.meta == Refile(r.meta)
    ensures u.(creator := r.creator, restricted := r.restricted, tag := r.tag, meta := r.meta) == r
    ensures Filed(r.meta) ==> u.(creator := r.creator, restricted := r.restricted, tag := r.tag) == r
  {
    var n := New(r.runId, Some(r.runDate), r.insertionDate, Values(r.meta), creator, restricted, r.file, tag);
    n.value.(dataSets := r.dataSets, flags := r.flags)
  }

  /** `update(file)`: a copy with the file replaced, its metadata filed again as in
      `Update`. */
  function UpdateFile(r: Run, file: Option<string>): (u: Run)
    ensures u.file == file && u.meta == Refile(r.meta)
    ensures u.(file := r.file, meta := r.meta) == r
    ensures Filed(r.meta) ==> u.(file := r.file) == r
  {
    var n := New(r.runId, Some(r.runDate), r.insertionDate, Values(r.meta), r.creator, r.restricted, file, r.tag);
    n.value.(dataSets := r.dataSets, flags := r.flags)
  }

  /** `setMetaData(type, metaData)`: stores the record under the type; storing null
      leaves the type without metadata, as `getMetaData` and `isComplete` see it. */
  function SetMetaData(r: Run, t: MetaData.Type, m: Option<MetaRecord.Meta>): (u: Run)
    ensures m.Some? ==> t in u.meta && u.meta[t] == m.value
    ensures m.None? ==> t !in u.meta
    ensures forall k :: k != t ==> (k in u.meta <==> k in r.meta)
    ensures forall k :: k != t && k in r.meta ==> u.meta[k] == r.meta[k]
    ensures u.(meta := r.meta) == r
  {
    if m.Some? then r.(meta := r.meta[t := m.value]) else r.(meta := r.meta - {t})
  }

  /** Storing a record under its own type, or a null, keeps every record filed under its
      own type; a run made by the constructor starts that way. */
  lemma SetMetaDataKeepsFiled(r: Run, t: MetaData.Type, m: Option<MetaRecord.Meta>)
    requires Filed(r.meta)
    ensures Filed(SetMetaData(r, t, m).meta) <==> m.None? || MetaRecord.TypeOf(m.value) == t
  {
    if m.Some? {
      assert t in SetMetaData(r, t, m).meta;
    }
  }

  /** A record stored under another type than its own moves to its own type on the next
      `update` and leaves the type it was stored under empty. It replaces the record already
      filed there unless that record's type comes later in `EnumMap` order, which then wins. */
  lemma UpdateMovesMisfiled(r: Run, t: MetaData.Type, x: MetaRecord.Meta,
                            creator: Option<string>, restricted: bool, tag: Option<string>)
    requires Filed(r.meta) && MetaRecord.TypeOf(x) != t
    ensures var u := Update(SetMetaData(r, t, Some(x)), creator, restricted, tag);
      var tx := MetaRecord.TypeOf(x);
      tx in u.meta && t !in u.meta
      && u.meta[tx] == (if tx in r.meta && MetaData.Ordinal(t) < MetaData.Ordinal(tx) then r.meta[tx] else x)
  {
    var s := SetMetaData(r, t, Some(x));
    var u := Update(s, creator, restricted, tag);
    var tx := MetaRecord.TypeOf(x);
    MetaData.TypeTable();
    assert s.meta[t] == x;
    assert tx in u.meta;
    assert Latest(s.meta, tx, u.meta[tx]);
    var k :| k in s.meta && s.meta[k] == u.meta[tx]
      && forall k' :: k' in s.meta && MetaRecord.TypeOf(s.meta[k']) == tx ==> MetaData.Ordinal(k') <= MetaData.Ordinal(k);
    assert MetaData.Ordinal(t) <= MetaData.Ordinal(k);
    if k != t {
      assert k == tx;
      assert MetaData.Ordinal(t) != MetaData.Ordinal(tx) by {
        assert MetaData.Types[MetaData.Ordinal(t)] == t;
      }
    } else if tx in r.meta {
      assert MetaData.Ordinal(tx) <= MetaData.Ordinal(t);
    }
    forall k2 | k2 in s.meta ensures MetaRecord.TypeOf(s.meta[k2]) != t {
      if k2 != t {
        assert s.meta[k2] == r.meta[k2];
      }
    }
  }

  /** Storing one type's record does not disturb a record stored under another. */
  lemma SetMetaDataCommutes(r: Run, t1: MetaData.Type, m1: Option<MetaRecord.Meta>,
                            t2: MetaData.Type, m2: Option<MetaRecord.Meta>)
    requires t1 != t2
    ensures SetMetaData(SetMetaData(r, t1, m1), t2, m2) == SetMetaData(SetMetaData(r, t2, m2), t1, m1)
  {
    var a := SetMetaData(SetMetaData(r, t1, m1), t2, m2);
    var b := SetMetaData(SetMetaData(r, t2, m2), t1, m1);
    assert a.meta == b.meta;
  }

  /** `addDataSet`: appends at the end. */
  function AddDataSet(r: Run, d: RunData.RunData): (u: Run)
    ensures |u.dataSets| == |r.dataSets| + 1 && u.dataSets[|r.dataSets|] == d
    ensures u.dataSets[..|r.dataSets|] == r.dataSets
    ensures u.(dataSets := r.dataSets) == r
  {
    r.(dataSets := r.dataSets + [d])
  }

  /** `addAllDataSets`: appends the data sets in order. */
  function AddAllDataSets(r: Run, ds: seq<RunData.RunData>): (u: Run)
    ensures |u.dataSets| == |r.dataSets| + |ds|
    ensures u.dataSets[..|r.dataSets|] == r.dataSets && u.dataSets[|r.dataSets|..] == ds
    ensures u.(dataSets := r.dataSets) == r
  {
    r.(dataSets := r.dataSets + ds)
  }

  /** What a table column shows: a metadata type or one of the run's own fields. */
  datatype Column = MetaColumn(t: MetaData.Type) | FieldColumn(field: string)

  datatype Cell =
    | MetaCell(meta: Option<MetaRecord.Meta>)
    | DateCell(date: Date)
    | TextCell(text: Option<string>)
    | FlagCell(flag: bool)

  /** `getColumnData`. A missing insertion date is a `NullPointerException` (it is cloned)
      and an unknown field name an `IllegalArgumentException`. */
  function GetColumnData(r: Run, c: Column): (v: Result<Cell>)
    ensures c.MetaColumn? ==> v == Success(MetaCell(if c.t in r.meta then Some(r.meta[c.t]) else None))
    ensures c.FieldColumn? && c.field == "flags" ==> v == Success(TextCell(Some(JavaText.Join(r.flags, ", "))))
    ensures c.FieldColumn? ==>
      (v.Success? <==> c.field in {"runDate", "runId", "insertionDate", "creator", "restricted", "file", "tag", "flags"}
                       && (c.field == "insertionDate" ==> r.insertionDate.Some?))
  {
    match c
    case MetaColumn(t) => Success(MetaCell(if t in r.meta then Some(r.meta[t]) else None))
    case FieldColumn(f) =>
      if f == "runDate" then Success(DateCell(r.runDate))
      else if f == "runId" then Success(TextCell(r.runId))
      else if f == "insertionDate" then
        (if r.insertionDate.Some? then Success(DateCell(r.insertionDate.value))
         else Failure("NullPointerException"))
      else if f == "creator" then Success(TextCell(r.creator))
      else if f == "restricted" then Success(FlagCell(r.restricted))
      else if f == "file" then Success(TextCell(r.file))
      else if f == "tag" then Success(TextCell(r.tag))
      else if f == "flags" then Success(TextCell(Some(JavaText.Join(r.flags, ", "))))
      else Failure("Invalid field name " + f)
  }

  /** `TABLE_COLUMNS`: the run date, the six metadata types in order, and the privacy flag. */
  const TableColumns: seq<Column> := [
    FieldColumn("runDate"),
    MetaColumn(MetaData.Application), MetaColumn(MetaData.Compiler), MetaColumn(MetaData.Mpi),
    MetaColumn(MetaData.Machine), MetaColumn(MetaData.OperatingSystem),
    MetaColumn(MetaData.Processor),
    FieldColumn("restricted")]

  /** `asTableRow`: one cell per table column; every one of them can be read. */
  function AsTableRow(r: Run): (row: seq<Cell>)
    ensures |row| == |TableColumns|
    ensures forall i :: 0 <= i < |row| ==> GetColumnData(r, TableColumns[i]) == Success(row[i])
  {
    seq(|TableColumns|, i requires 0 <= i < |TableColumns| => GetColumnData(r, TableColumns[i]).value)
  }

  /** The columns read back what the setters store: the metadata of a type just set, the
      creator, privacy flag and tag just updated, and the file just replaced; the
      metadata of every other type reads as before. */
  lemma ColumnsReadSetters(r: Run, t: MetaData.Type, m: Option<MetaRecord.Meta>, creator: Option<string>,
                           restricted: bool, tag: Option<string>, file: Option<string>)
    ensures GetColumnData(SetMetaData(r, t, m), MetaColumn(t)) == Success(MetaCell(m))
    ensures forall k :: k != t ==>
              GetColumnData(SetMetaData(r, t, m), MetaColumn(k)) == GetColumnData(r, MetaColumn(k))
    ensures GetColumnData(Update(r, creator, restricted, tag), FieldColumn("creator")) == Success(TextCell(creator))
    ensures GetColumnData(Update(r, creator, restricted, tag), FieldColumn("restricted")) == Success(FlagCell(restricted))
    ensures GetColumnData(Update(r, creator, restricted, tag), FieldColumn("tag")) == Success(TextCell(tag))
    ensures GetColumnData(UpdateFile(r, file), FieldColumn("file")) == Success(TextCell(file))
  {
  }

  /** Two runs show the same table row exactly when they have the same run date, the same
      privacy flag and the same metadata of each of the six types. */
  lemma TableRowDetermines(a: Run, b: Run)
    ensures AsTableRow(a) == AsTableRow(b) <==>
              a.runDate == b.runDate && a.restricted == b.restricted
              && forall t: MetaData.Type :: (t in a.meta <==> t in b.meta) && (t in a.meta ==> a.meta[t] == b.meta[t])
  {
    var ra, rb := AsTableRow(a), AsTableRow(b);
    if ra == rb {
      assert GetColumnData(a, TableColumns[0]) == GetColumnData(b, TableColumns[0]);
      assert GetColumnData(a, TableColumns[7]) == GetColumnData(b, TableColumns[7]);
      forall t: MetaData.Type ensures (t in a.meta <==> t in b.meta) && (t in a.meta ==> a.meta[t] == b.meta[t]) {
        var i := match t
          case Application => 1 case Compiler => 2 case Mpi => 3
          case Machine => 4 case OperatingSystem => 5 case Processor => 6;
        assert TableColumns[i] == MetaColumn(t);
        assert GetColumnData(a, TableColumns[i]) == GetColumnData(b, TableColumns[i]);
      }
    }
    if a.runDate == b.runDate && a.restricted == b.restricted
       && forall t: MetaData.Type :: (t in a.meta <==> t in b.meta) && (t in a.meta ==> a.meta[t] == b.meta[t]) {
      forall i | 0 <= i < |TableColumns| ensures ra[i] == rb[i] {
        assert GetColumnData(a, TableColumns[i]) == GetColumnData(b, TableColumns[i]);
      }
    }
  }

  /** `equals` as written: with a non-null run id only the ids are compared, otherwise
      the run date, creator and privacy flag. It does not look at the other side's id. */
  predicate EqualsAsWritten(a: Run, b: Run) {
    if a.runId.Some? then b.runId == a.runId
    else a.runDate == b.runDate && a.creator == b.creator && a.restricted == b.restricted
  }

  /** `hashCode`: the id's hash when there is an id, else a hash of the run date, creator
      and privacy flag. */
  function HashCode(r: Run): (h: int)
    ensures JavaText.IsInt32(h)
  {
    if r.runId.Some? then JavaText.StringHash(r.runId.value)
    else FieldsHash(r.runDate, r.creator, r.restricted)
  }

  /** The hash of a run without an id, in 32-bit arithmetic. */
  function FieldsHash(runDate: Date, creator: Option<string>, restricted: bool): (h: int)
    ensures JavaText.IsInt32(h)
  {
    var h1 := JavaText.Wrap32(23 * 7 + JavaText.LongHash(runDate));
    var h2 := JavaText.Wrap32(23 * h1 + (if creator.Some? then JavaText.StringHash(creator.value) else 0));
    JavaText.Wrap32(23 * h2 + (if restricted then 1 else 0))
  }

  /** A run without an id equals a run with one that shares its date, creator and flag,
      but not the other way round, and their hash codes need not agree. */
  lemma EqualsAsWrittenAsymmetric(a: Run, id: string)
    requires a.runId.None?
    ensures var b := a.(runId := Some(id));
            EqualsAsWritten(a, b) && !EqualsAsWritten(b, a)
  {
  }

  /** `equals` as evidently intended: when either run has an id the ids decide, otherwise
      the run date, creator and privacy flag. */
  predicate Equals(a: Run, b: Run) {
    if a.runId.Some? || b.runId.Some? then a.runId == b.runId
    else a.runDate == b.runDate && a.creator == b.creator && a.restricted == b.restricted
  }

  /** The intended equality is an equivalence and agrees with the written one whenever
      the first run has an id or neither has. */
  lemma EqualsEquivalence(a: Run, b: Run, c: Run)
    ensures Equals(a, a)
    ensures Equals(a, b) ==> Equals(b, a)
    ensures Equals(a, b) && Equals(b, c) ==> Equals(a, c)
    ensures a.runId.Some? || b.runId.None? ==> (Equals(a, b) <==> EqualsAsWritten(a, b))
  {
  }

  /** Runs equal under the intended equality hash alike. */
  lemma EqualsHashCode(a: Run, b: Run)
    requires Equals(a, b)
    ensures HashCode(a) == HashCode(b)
  {
    if a.runId.None? {
      assert a.runDate == b.runDate && a.creator == b.creator && a.restricted == b.restricted;
    }
  }

  /** Under the written equality a run without an id can equal one whose hash differs. */
  lemma EqualsAsWrittenHashMismatch(a: Run, id: string)
    requires a.runId.None? && HashCode(a) != JavaText.StringHash(id)
    ensures var b := a.(runId := Some(id));
            EqualsAsWritten(a, b) && HashCode(a) != HashCode(b)
  {
  }

  /** `compareTo`: the run ids compared; a null id on either side is a
      `NullPointerException`. */
  function CompareTo(a: Run, b: Run): (r: Result<int>)
    ensures r.Success? <==> a.runId.Some? && b.runId.Some?
    ensures r.Success? ==> (r.value == 0 <==> a.runId == b.runId)
  {
    if a.runId.Some? && b.runId.Some? then Success(JavaText.CompareTo(a.runId.value, b.runId.value))
    else Failure("NullPointerException")
  }

  /** `toString`: the run id, "null" when there is none. */
  function ToString(r: Run): string {
    JavaText.NullText(r.runId)
  }
}
