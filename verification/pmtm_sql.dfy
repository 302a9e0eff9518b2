/** `pmtm_sql`: the generic upsert engine of the Python importer and its record classes.
    The database is an abstract map from table name to rows; a statement's effect is what the
    server does with it, and `execute`'s count is the number of rows it affects or returns. */
module PmtmSql {
  import opened Wrappers
  import opened PmtmSqlValues
  import PyText
  import Tables
  import JavaText

  // ---------------------------------------------------------------------------
  // The store
  // ---------------------------------------------------------------------------

  /** A stored row: its auto-increment `ID` and its columns. A column that is absent is
      NULL. */
  datatype Row = Row(id: int, cells: map<Col, SqlValue>)

  /** The database: the rows of each table in insertion order, the next auto-increment
      value, the tables where an insert affects no row, and the tables written to, in
      order. */
  datatype Db = Db(tables: map<Tables.Table, seq<Row>>, nextId: int, refusing: set<Tables.Table>,
                   log: seq<Tables.Table>)

  /** The rows of a table (none for a table not yet written). */
  function Rows(db: Db, table: Tables.Table): seq<Row> {
    if table in db.tables then db.tables[table] else []
  }

  /** Every row's `ID` is below the next auto-increment value. */
  predicate Valid(db: Db) {
    forall t :: t in db.tables ==> forall k :: 0 <= k < |db.tables[t]| ==> db.tables[t][k].id < db.nextId
  }

  /** The columns the record classes write. */
  datatype Col =
    | Name | Vendor | VersionMajor | VersionMinor | VersionBuild | VersionCode | VersionBuildMinor
    | Description | Private | FullName | Kernel | ProcessorArchitecture | CoresPerProcessor
    | ThreadsPerCore | ClockSpeedHz | Flag | RunCreator | Date | Machine | OperatingSystem
    | Processor | Compiler | MPI | Application | RunDate | RunID | Tag | File | ParentRun | Sequence
    | Type | SubRunOwner | DoubleValue | IntegerValue | StringValue | Rank | ThreadID | Value
    | Error | ErrorType | SubRun | Count | PauseCount

  /** A value to be written to the database, with the business key `fetch` searches by.
      `runId` is the `Run` override's `run_id`; every other class has none. */
  datatype SqlObject = SqlObject(table: Tables.Table, key: seq<Col>, values: map<Col, SqlValue>,
                                 runId: Option<string>, id: Option<int>)

  /** A `WHERE` test `name=literal`. */
  type Condition = (Col, SqlValue)

  // ---------------------------------------------------------------------------
  // WHERE clauses
  // ---------------------------------------------------------------------------

  /** `name=literal`: true only when neither side is NULL and the stored value equals the
      literal's, so `name=NULL` is never true. Equality is exact: the column collation,
      under which the server may ignore letter case or trailing spaces, is not modelled. */
  predicate EqualsTest(cells: map<Col, SqlValue>, c: Condition) {
    c.0 in cells && cells[c.0] != SNone && c.1 != SNone && cells[c.0] == Stored(c.1)
  }

  /** The test the key evidently means: `IS NULL` for a `None` value, `=` otherwise. */
  predicate NullSafeTest(cells: map<Col, SqlValue>, c: Condition) {
    if c.1 == SNone then c.0 !in cells || cells[c.0] == SNone else EqualsTest(cells, c)
  }

  /** A row passes every test of a clause. `nullSafe` chooses the test. */
  predicate RowMatches(r: Row, conds: seq<Condition>, nullSafe: bool) {
    forall k :: 0 <= k < |conds| ==>
      (if nullSafe then NullSafeTest(r.cells, conds[k]) else EqualsTest(r.cells, conds[k]))
  }

  /** The rows a `SELECT ... WHERE` returns, in table order. */
  function Matching(rows: seq<Row>, conds: seq<Condition>, nullSafe: bool): (r: seq<Row>)
    ensures |r| <= |rows|
    ensures forall k :: 0 <= k < |r| ==> r[k] in rows && RowMatches(r[k], conds, nullSafe)
  {
    if rows == [] then []
    else
      var rest := Matching(rows[..|rows| - 1], conds, nullSafe);
      var last := rows[|rows| - 1];
      if RowMatches(last, conds, nullSafe) then rest + [last] else rest
  }

  /** A row that passes the clause is returned; every row returned passes it. */
  lemma {:induction false} MatchingMembers(rows: seq<Row>, conds: seq<Condition>, nullSafe: bool, r: Row)
    requires r in rows && RowMatches(r, conds, nullSafe)
    ensures r in Matching(rows, conds, nullSafe)
  {
    var last := rows[|rows| - 1];
    if r != last {
      assert r in rows[..|rows| - 1] by {
        var k :| 0 <= k < |rows| && rows[k] == r;
        assert k < |rows| - 1;
        assert rows[..|rows| - 1][k] == r;
      }
      MatchingMembers(rows[..|rows| - 1], conds, nullSafe, r);
    }
  }

  /** A row appended to a table is returned after the rows already there, if it passes. */
  lemma {:induction false} MatchingAppend(rows: seq<Row>, r: Row, conds: seq<Condition>, nullSafe: bool)
    ensures Matching(rows + [r], conds, nullSafe)
         == Matching(rows, conds, nullSafe) + (if RowMatches(r, conds, nullSafe) then [r] else [])
  {
    assert (rows + [r])[..|rows + [r]| - 1] == rows;
  }

  /** The clause `find_clause` builds from the business key: one test per key column, each
      with the object's value, in key order. A key column without a value is a `KeyError`
      and a value of an unknown type raises in `_sql_tostring`. */
  function KeyConditions(key: seq<Col>, values: map<Col, SqlValue>): (r: Result<seq<Condition>>)
    ensures r.Success? ==> |r.value| == |key|
                           && forall k :: 0 <= k < |key| ==> key[k] in values && r.value[k] == (key[k], values[key[k]])
    ensures r.Success? <==> forall k :: 0 <= k < |key| ==> key[k] in values && !values[key[k]].SOther?
  {
    if key == [] then Success([])
    else if key[0] !in values then Failure("KeyError")
    else if values[key[0]].SOther? then Failure("Unknown object type " + values[key[0]].typeName)
    else
      match KeyConditions(key[1..], values)
      case Failure(e) => Failure(e)
      case Success(rest) =>
        assert forall k :: 1 <= k < |key| ==> key[k] == key[1..][k - 1];
        Success([(key[0], values[key[0]])] + rest)
  }

  /** The clause `fetch` searches by: `RunID` alone for a run with a non-empty `run_id`, the
      business key otherwise. */
  function Conditions(o: SqlObject): (r: Result<seq<Condition>>)
    ensures o.runId.Some? && o.runId.value != "" ==> r == Success([(RunID, SStr(o.runId.value))])
  {
    if o.runId.Some? && o.runId.value != "" then Success([(RunID, SStr(o.runId.value))])
    else KeyConditions(o.key, o.values)
  }

  // ---------------------------------------------------------------------------
  // fetch, save, fetch_or_save
  // ---------------------------------------------------------------------------

  /** `fetch`: one matching row sets `id`, several raise, none leave `id` as it was. An
      empty key makes the statement `SELECT ID FROM t WHERE `, which the server rejects.
      `nullSafe` is false for the statement as written. */
  function FetchWith(db: Db, o: SqlObject, nullSafe: bool): (r: Result<SqlObject>)
    ensures r.Success? ==> r.value.(id := o.id) == o
  {
    match Conditions(o)
    case Failure(e) => Failure(e)
    case Success(conds) =>
      if conds == [] then Failure("ProgrammingError: You have an error in your SQL syntax")
      else
        var found := Matching(Rows(db, o.table), conds, nullSafe);
        if |found| == 1 then Success(o.(id := Some(found[0].id)))
        else if |found| > 1 then Failure("Multiple entries found for " + Tables.Name(o.table))
        else Success(o)
  }

  /** The row an insert stores: every value as the server reads its literal. */
  function StoredCells(values: map<Col, SqlValue>): (r: map<Col, SqlValue>)
    ensures r.Keys == values.Keys && forall k :: k in r ==> r[k] == Stored(values[k])
  {
    map k | k in values :: Stored(values[k])
  }

  /** `INSERT INTO t (names) VALUES (literals)`: every value must have a literal; the row
      gets the next `ID`. A table that takes no row is `Failed to save`. */
  function Insert(db: Db, o: SqlObject): (r: Result<Db>)
    ensures r.Success? <==> (forall k :: k in o.values ==> !o.values[k].SOther?) && o.table !in db.refusing
    ensures r.Success? ==>
              && r.value.tables == db.tables[o.table := Rows(db, o.table) + [Row(db.nextId, StoredCells(o.values))]]
              && r.value.nextId == db.nextId + 1 && r.value.refusing == db.refusing
              && r.value.log == db.log + [o.table]
    ensures r.Success? ==> Appends(db, r.value, o.table, 1)
  {
    if exists k :: k in o.values && o.values[k].SOther? then Failure("Unknown object type")
    else if o.table in db.refusing then Failure("Failed to save " + Tables.Name(o.table))
    else
      Success(db.(tables := db.tables[o.table := Rows(db, o.table) + [Row(db.nextId, StoredCells(o.values))]],
                  nextId := db.nextId + 1, log := db.log + [o.table]))
  }

  /** `db2` is `db` with `n` rows appended to table `t` and nothing else changed: every
      other table keeps its rows, and the log records `t` once per row. */
  ghost predicate Appends(db: Db, db2: Db, t: Tables.Table, n: nat) {
    && db2.refusing == db.refusing
    && (forall u :: u != t ==> Rows(db2, u) == Rows(db, u))
    && |Rows(db2, t)| == |Rows(db, t)| + n && Rows(db, t) <= Rows(db2, t)
    && |db2.log| == |db.log| + n && db.log <= db2.log
    && (forall i :: |db.log| <= i < |db2.log| ==> db2.log[i] == t)
  }

  /** Appending to one table twice appends the sum. */
  lemma {:induction false} AppendsTrans(a: Db, b: Db, c: Db, t: Tables.Table, m: nat, n: nat)
    requires Appends(a, b, t, m) && Appends(b, c, t, n)
    ensures Appends(a, c, t, m + n)
  {
    assert Rows(a, t) <= Rows(c, t) by {
      assert Rows(c, t)[..|Rows(a, t)|] == Rows(b, t)[..|Rows(a, t)|];
    }
    assert a.log <= c.log by {
      assert c.log[..|a.log|] == b.log[..|a.log|];
    }
  }

  /** `save`: insert, and with `update_id` fetch again and insist on an `id`. */
  function SaveWith(db: Db, o: SqlObject, updateId: bool, nullSafe: bool): (r: Result<(Db, SqlObject)>)
    ensures r.Success? ==> Insert(db, o).Success? && r.value.0 == Insert(db, o).value
    ensures r.Success? && !updateId ==> r.value.1 == o
    ensures r.Success? && updateId ==> r.value.1.id.Some? && r.value.1.(id := o.id) == o
  {
    match Insert(db, o)
    case Failure(e) => Failure(e)
    case Success(db2) =>
      if !updateId then Success((db2, o))
      else
        match FetchWith(db2, o, nullSafe)
        case Failure(e) => Failure(e)
        case Success(o2) =>
          if o2.id.None? then Failure("Failed to save " + Tables.Name(o.table)) else Success((db2, o2))
  }

  /** `fetch_or_save`: save only when `fetch` left `id` as `None`. */
  function FetchOrSaveWith(db: Db, o: SqlObject, nullSafe: bool): (r: Result<(Db, SqlObject)>)
    ensures r.Success? && FetchWith(db, o, nullSafe).Success? && FetchWith(db, o, nullSafe).value.id.Some? ==>
              r.value == (db, FetchWith(db, o, nullSafe).value)
  {
    match FetchWith(db, o, nullSafe)
    case Failure(e) => Failure(e)
    case Success(o1) => if o1.id.Some? then Success((db, o1)) else SaveWith(db, o1, true, nullSafe)
  }

  /** `fetch` as the importer writes it, where a `None` key value becomes `name=NULL`. */
  function FetchAsWritten(db: Db, o: SqlObject): Result<SqlObject> { FetchWith(db, o, false) }

  /** `fetch_or_save` as the importer writes it. */
  function FetchOrSaveAsWritten(db: Db, o: SqlObject): Result<(Db, SqlObject)> {
    FetchOrSaveWith(db, o, false)
  }

  /** `fetch` with `IS NULL` for a `None` key value, as the Java loader does. */
  function Fetch(db: Db, o: SqlObject): Result<SqlObject> { FetchWith(db, o, true) }

  /** `save` with the corrected `fetch`. */
  function Save(db: Db, o: SqlObject, updateId: bool): Result<(Db, SqlObject)> {
    SaveWith(db, o, updateId, true)
  }

  /** `fetch_or_save` with the corrected `fetch`. */
  function FetchOrSave(db: Db, o: SqlObject): Result<(Db, SqlObject)> { FetchOrSaveWith(db, o, true) }

  // ---------------------------------------------------------------------------
  // Properties of the engine
  // ---------------------------------------------------------------------------

  /** The three outcomes of `fetch`: exactly one matching row gives its `ID`, several
      raise, and none leave `id` unchanged. */
  lemma {:induction false} FetchOutcomes(db: Db, o: SqlObject, nullSafe: bool)
    requires Conditions(o).Success? && Conditions(o).value != []
    ensures var found := Matching(Rows(db, o.table), Conditions(o).value, nullSafe);
            && (|found| == 1 ==> FetchWith(db, o, nullSafe) == Success(o.(id := Some(found[0].id))))
            && (|found| > 1 <==> FetchWith(db, o, nullSafe).Failure?)
            && (found == [] ==> FetchWith(db, o, nullSafe) == Success(o))
  {
  }

  /** `fetch` looks only at the key columns: two objects of one table that agree on them
      fetch the same `id`, whatever their other columns. */
  lemma {:induction false} FetchKeyOnly(db: Db, o1: SqlObject, o2: SqlObject, nullSafe: bool)
    requires o1.table == o2.table && o1.key == o2.key && o1.runId == o2.runId && o1.id == o2.id
    requires forall k :: 0 <= k < |o1.key| ==>
               (o1.key[k] in o1.values <==> o1.key[k] in o2.values)
               && (o1.key[k] in o1.values ==> o1.values[o1.key[k]] == o2.values[o1.key[k]])
    ensures FetchWith(db, o1, nullSafe).Success? <==> FetchWith(db, o2, nullSafe).Success?
    ensures FetchWith(db, o1, nullSafe).Success? ==>
              FetchWith(db, o1, nullSafe).value.id == FetchWith(db, o2, nullSafe).value.id
  {
    SameKeyConditions(o1.key, o1.values, o2.values);
  }

  /** Values that agree on the key give the same clause. */
  lemma {:induction false} SameKeyConditions(key: seq<Col>, v1: map<Col, SqlValue>, v2: map<Col, SqlValue>)
    requires forall k :: 0 <= k < |key| ==>
               (key[k] in v1 <==> key[k] in v2) && (key[k] in v1 ==> v1[key[k]] == v2[key[k]])
    ensures KeyConditions(key, v1) == KeyConditions(key, v2)
  {
    if key != [] {
      assert forall k :: 0 <= k < |key[1..]| ==> key[1..][k] == key[k + 1];
      SameKeyConditions(key[1..], v1, v2);
    }
  }

  /** A run with a non-empty `run_id` is found by `RunID` alone: the rest of its columns do
      not matter. */
  lemma {:induction false} RunFetchByRunId(db: Db, o1: SqlObject, o2: SqlObject, nullSafe: bool)
    requires o1.table == o2.table && o1.id == o2.id
    requires o1.runId.Some? && o1.runId.value != "" && o1.runId == o2.runId
    ensures FetchWith(db, o1, nullSafe).Success? <==> FetchWith(db, o2, nullSafe).Success?
    ensures FetchWith(db, o1, nullSafe).Success? ==>
              FetchWith(db, o1, nullSafe).value.id == FetchWith(db, o2, nullSafe).value.id
  {
  }

  /** A class without a business key cannot be fetched: the statement is malformed. */
  lemma {:induction false} EmptyKeyUnfetchable(db: Db, o: SqlObject, nullSafe: bool)
    requires o.key == [] && (o.runId.None? || o.runId.value == "")
    ensures FetchWith(db, o, nullSafe).Failure?
  {
  }

  /** An insert adds one row with a fresh `ID` to its own table and changes no other
      table. */
  lemma {:induction false} InsertFrame(db: Db, o: SqlObject, t: Tables.Table)
    requires Valid(db) && Insert(db, o).Success?
    ensures Valid(Insert(db, o).value)
    ensures t != o.table ==> Rows(Insert(db, o).value, t) == Rows(db, t)
    ensures forall k :: 0 <= k < |Rows(db, o.table)| ==> Rows(db, o.table)[k].id != db.nextId
  {
    var db2 := Insert(db, o).value;
    forall u | u in db2.tables
      ensures forall k :: 0 <= k < |db2.tables[u]| ==> db2.tables[u][k].id < db2.nextId
    {
      if u == o.table {
        assert forall k :: 0 <= k < |Rows(db, u)| ==> Rows(db, u)[k].id < db.nextId;
        assert forall k :: 0 <= k < |db2.tables[u]| - 1 ==> db2.tables[u][k] == Rows(db, u)[k];
      }
    }
  }

  /** A row always passes the null-safe clause built from the values it was stored from. */
  lemma {:induction false} StoredRowMatches(id: int, o: SqlObject, conds: seq<Condition>)
    requires Conditions(o) == Success(conds)
    requires o.runId.Some? && o.runId.value != "" ==> RunID in o.values && o.values[RunID] == SStr(o.runId.value)
    ensures RowMatches(Row(id, StoredCells(o.values)), conds, true)
  {
  }

  /** With the corrected clause, `fetch_or_save` succeeds whenever the key is usable, at
      most one row matches already and the table takes rows; the object then carries the
      `ID` of the one row that matches it. */
  lemma {:induction false} FetchOrSaveFinds(db: Db, o: SqlObject)
    requires o.id.None? && Conditions(o).Success? && Conditions(o).value != []
    requires o.runId.Some? && o.runId.value != "" ==> RunID in o.values && o.values[RunID] == SStr(o.runId.value)
    requires forall k :: k in o.values ==> !o.values[k].SOther?
    requires |Matching(Rows(db, o.table), Conditions(o).value, true)| <= 1
    requires o.table !in db.refusing
    ensures FetchOrSave(db, o).Success?
    ensures var r := FetchOrSave(db, o).value;
            && r.1.id.Some?
            && Matching(Rows(r.0, o.table), Conditions(o).value, true) == [Row(r.1.id.value, Matching(Rows(r.0, o.table), Conditions(o).value, true)[0].cells)]
  {
    var conds := Conditions(o).value;
    var found := Matching(Rows(db, o.table), conds, true);
    if found == [] {
      var db2 := Insert(db, o).value;
      var row := Row(db.nextId, StoredCells(o.values));
      assert Rows(db2, o.table) == Rows(db, o.table) + [row];
      MatchingAppend(Rows(db, o.table), row, conds, true);
      StoredRowMatches(db.nextId, o, conds);
      assert Matching(Rows(db2, o.table), conds, true) == [row];
    }
  }

  /** `fetch_or_save` is idempotent: once it has stored or found an object, doing it again
      finds the same `ID` and writes nothing. */
  lemma {:induction false} FetchOrSaveIdempotent(db: Db, o: SqlObject)
    requires o.id.None? && FetchOrSave(db, o).Success?
    ensures var (db1, o1) := FetchOrSave(db, o).value;
            FetchOrSave(db1, o) == Success((db1, o1))
  {
    var conds := Conditions(o).value;
    var f := Fetch(db, o).value;
    if f.id.None? {
      var db1 := FetchOrSave(db, o).value.0;
      var o1 := FetchOrSave(db, o).value.1;
      assert Fetch(db1, f) == Success(o1);
      assert Fetch(db1, o) == Fetch(db1, f);
    }
  }

  /** Written as it is, `fetch_or_save` can never store an object with a `None` key value:
      `name=NULL` matches no row, so the fetch after the insert finds nothing and the save
      raises. */
  lemma {:induction false} NullKeyNeverSaved(db: Db, o: SqlObject, k: nat)
    requires o.id.None? && (o.runId.None? || o.runId.value == "")
    requires k < |o.key| && o.key[k] in o.values && o.values[o.key[k]] == SNone
    ensures FetchOrSaveAsWritten(db, o).Failure?
  {
    match KeyConditions(o.key, o.values)
    case Failure(_) =>
    case Success(conds) =>
      assert conds[k].1 == SNone;
      NothingMatches(Rows(db, o.table), conds, k);
      NullKeySaveFails(db, o, k);
  }

  /** Exactly one row of `o`'s table passes `o`'s clause, and its `ID` is `id`. */
  predicate KeyedBy(db: Db, o: SqlObject, id: int, nullSafe: bool) {
    Conditions(o).Success? &&
    var m := Matching(Rows(db, o.table), Conditions(o).value, nullSafe);
    |m| == 1 && m[0].id == id
  }

  /** A `fetch` that gives an `id` to an object without one has found exactly one row. */
  lemma {:induction false} FetchFound(db: Db, o: SqlObject, nullSafe: bool)
    requires o.id.None? && FetchWith(db, o, nullSafe).Success? && FetchWith(db, o, nullSafe).value.id.Some?
    ensures KeyedBy(db, o, FetchWith(db, o, nullSafe).value.id.value, nullSafe)
  {
  }

  /** After `save` with `update_id`, one row was appended and exactly one row passes the
      object's clause: the one whose `ID` the object now carries. */
  lemma {:induction false} SaveKeyed(db: Db, o: SqlObject, nullSafe: bool)
    requires o.id.None? && SaveWith(db, o, true, nullSafe).Success?
    ensures var r := SaveWith(db, o, true, nullSafe).value;
            Appends(db, r.0, o.table, 1) && KeyedBy(r.0, o, r.1.id.value, nullSafe)
  {
    var db2 := Insert(db, o).value;
    FetchFound(db2, o, nullSafe);
  }

  /** After `fetch_or_save`, the table holds at most one more row, and exactly one row passes
      the object's clause: the one whose `ID` the object now carries. */
  lemma {:induction false} FetchOrSaveKeyed(db: Db, o: SqlObject, nullSafe: bool)
    requires o.id.None? && FetchOrSaveWith(db, o, nullSafe).Success?
    ensures var r := FetchOrSaveWith(db, o, nullSafe).value;
            && r.1.id.Some? && r.1.(id := None) == o && KeyedBy(r.0, o, r.1.id.value, nullSafe)
            && (Appends(db, r.0, o.table, 0) || Appends(db, r.0, o.table, 1))
  {
    var f := FetchWith(db, o, nullSafe).value;
    if f.id.Some? {
      FetchFound(db, o, nullSafe);
    } else {
      assert f == o;
      SaveKeyed(db, o, nullSafe);
    }
  }

  /** The rows a clause returns from two stretches of a table are those of each in turn. */
  lemma {:induction false} MatchingConcat(a: seq<Row>, b: seq<Row>, conds: seq<Condition>, nullSafe: bool)
    ensures Matching(a + b, conds, nullSafe) == Matching(a, conds, nullSafe) + Matching(b, conds, nullSafe)
  {
    if b != [] {
      var b0 := b[..|b| - 1];
      MatchingConcat(a, b0, conds, nullSafe);
      assert a + b == (a + b0) + [b[|b| - 1]];
      MatchingAppend(a + b0, b[|b| - 1], conds, nullSafe);
      MatchingAppend(b0, b[|b| - 1], conds, nullSafe);
      assert b0 + [b[|b| - 1]] == b;
    } else {
      assert a + b == a;
    }
  }

  /** Rows that pass a clause still pass it after rows are appended to their table. */
  lemma {:induction false} MatchingGrows(db: Db, db2: Db, t: Tables.Table, n: nat, conds: seq<Condition>, nullSafe: bool)
    requires Appends(db, db2, t, n)
    ensures Matching(Rows(db, t), conds, nullSafe) <= Matching(Rows(db2, t), conds, nullSafe)
  {
    var rows := Rows(db, t);
    assert Rows(db2, t) == rows + Rows(db2, t)[|rows|..];
    MatchingConcat(rows, Rows(db2, t)[|rows|..], conds, nullSafe);
  }

  /** Written as it is, `save` with `update_id` cannot store an object with a `None` key
      value: the fetch after the insert finds nothing. */
  lemma {:induction false} NullKeySaveFails(db: Db, o: SqlObject, k: nat)
    requires o.id.None? && (o.runId.None? || o.runId.value == "")
    requires k < |o.key| && o.key[k] in o.values && o.values[o.key[k]] == SNone
    ensures SaveWith(db, o, true, false).Failure?
  {
    match KeyConditions(o.key, o.values)
    case Failure(_) =>
    case Success(conds) =>
      assert conds[k].1 == SNone;
      match Insert(db, o)
      case Failure(_) =>
      case Success(db2) =>
        NothingMatches(Rows(db2, o.table), conds, k);
  }

  /** A clause with a `NULL` comparison returns no row. */
  lemma {:induction false} NothingMatches(rows: seq<Row>, conds: seq<Condition>, k: nat)
    requires k < |conds| && conds[k].1 == SNone
    ensures Matching(rows, conds, false) == []
  {
    if rows != [] {
      NothingMatches(rows[..|rows| - 1], conds, k);
      assert !EqualsTest(rows[|rows| - 1].cells, conds[k]);
    }
  }

  // ---------------------------------------------------------------------------
  // The record classes
  // ---------------------------------------------------------------------------

  /** A number that may be `None`. */
  function OptInt(v: Option<int>): (r: SqlValue)
    ensures v.None? <==> r == SNone
    ensures v.Some? ==> r == SInt(v.value)
  {
    match v
    case Some(n) => SInt(n)
    case None => SNone
  }

  /** A text that may be `None`. */
  function OptStr(v: Option<string>): (r: SqlValue)
    ensures v.None? <==> r == SNone
    ensures v.Some? ==> r == SStr(v.value)
  {
    match v
    case Some(s) => SStr(s)
    case None => SNone
  }

  /** A fresh object of a class other than `Run`. */
  function New(table: Tables.Table, key: seq<Col>, values: map<Col, SqlValue>): (o: SqlObject)
    ensures o.table == table && o.key == key && o.values == values && o.runId.None? && o.id.None?
  {
    SqlObject(table, key, values, None, None)
  }

  /** `Application(name, version)`: the version's parts, an empty description, not
      private. The key leaves out the build. */
  function ApplicationOf(name: string, version: string): (o: SqlObject)
    ensures o.table == Tables.Application && o.key == [Name, VersionMajor, VersionMinor, VersionCode]
    ensures o.values.Keys == {Name, VersionMajor, VersionMinor, VersionBuild, VersionCode, Description, Private, FullName}
    ensures o.values[Name] == SStr(name) && o.values[Private] == SBool(false)
    ensures var p := ParseVersion(version);
            o.values[VersionMajor] == SInt(p.major) && o.values[VersionMinor] == SInt(p.minor)
            && o.values[VersionBuild] == SInt(p.build) && o.values[VersionCode] == p.code
  {
    var p := ParseVersion(version);
    New(Tables.Application, [Name, VersionMajor, VersionMinor, VersionCode],
        map[Name := SStr(name), VersionMajor := SInt(p.major), VersionMinor := SInt(p.minor),
            VersionBuild := SInt(p.build), VersionCode := p.code, Description := SStr(""),
            Private := SBool(false), FullName := SStr("")])
  }

  /** Two applications with the same name, major, minor and code but different builds are
      the same `Application` row: the build is stored but not searched by. */
  lemma {:induction false} ApplicationBuildIgnored(db: Db, name: string, v1: string, v2: string, nullSafe: bool)
    requires var p1 := ParseVersion(v1); var p2 := ParseVersion(v2);
             p1.major == p2.major && p1.minor == p2.minor && p1.code == p2.code
    ensures FetchWith(db, ApplicationOf(name, v1), nullSafe).Success?
            <==> FetchWith(db, ApplicationOf(name, v2), nullSafe).Success?
    ensures FetchWith(db, ApplicationOf(name, v1), nullSafe).Success? ==>
              FetchWith(db, ApplicationOf(name, v1), nullSafe).value.id
              == FetchWith(db, ApplicationOf(name, v2), nullSafe).value.id
  {
    var o1 := ApplicationOf(name, v1);
    var o2 := ApplicationOf(name, v2);
    assert o1.values[VersionCode] == o2.values[VersionCode];
    assert o1.values[VersionMajor] == o2.values[VersionMajor] && o1.values[VersionMinor] == o2.values[VersionMinor];
    assert forall k :: 0 <= k < |o1.key| ==>
        o1.key[k] in o1.values && o1.key[k] in o2.values && o1.values[o1.key[k]] == o2.values[o1.key[k]];
    FetchKeyOnly(db, o1, o2, nullSafe);
  }

  const VendorVersionKey: seq<Col> := [Name, Vendor, VersionMajor, VersionMinor, VersionBuild]

  /** The columns shared by `Compiler` and `MPI`: the version's code is dropped. */
  function VendorVersionValues(name: string, vendor: string, version: string): (m: map<Col, SqlValue>)
    ensures m.Keys == {Name, Vendor, VersionMajor, VersionMinor, VersionBuild}
    ensures m[Name] == SStr(name) && m[Vendor] == SStr(vendor)
    ensures var p := ParseVersion(version);
            m[VersionMajor] == SInt(p.major) && m[VersionMinor] == SInt(p.minor) && m[VersionBuild] == SInt(p.build)
  {
    var p := ParseVersion(version);
    map[Name := SStr(name), Vendor := SStr(vendor), VersionMajor := SInt(p.major),
        VersionMinor := SInt(p.minor), VersionBuild := SInt(p.build)]
  }

  /** `Compiler(name, vendor, version)`. */
  function CompilerOf(name: string, vendor: string, version: string): (o: SqlObject)
    ensures o.table == Tables.Compiler && o.key == VendorVersionKey
    ensures o.values == VendorVersionValues(name, vendor, version)
  {
    New(Tables.Compiler, VendorVersionKey, VendorVersionValues(name, vendor, version))
  }

  /** `MPI(name, vendor, version)`, laid out like a compiler. */
  function MpiOf(name: string, vendor: string, version: string): (o: SqlObject)
    ensures o.table == Tables.MPI && o.key == VendorVersionKey
    ensures o.values == VendorVersionValues(name, vendor, version)
  {
    New(Tables.MPI, VendorVersionKey, VendorVersionValues(name, vendor, version))
  }

  /** `Machine(name, vendor)`, where the vendor of an old file is `None`. */
  function MachineOf(name: string, vendor: Option<string>): (o: SqlObject)
    ensures o.table == Tables.Machine && o.key == [Name, Vendor] && o.values.Keys == {Name, Vendor}
    ensures o.values[Name] == SStr(name) && (o.values[Vendor] == SNone <==> vendor.None?)
  {
    New(Tables.Machine, [Name, Vendor], map[Name := SStr(name), Vendor := OptStr(vendor)])
  }

  /** `OS(name, vendor, version, kernel)`: the version's code is the minor build, and the
      kernel is part of the key. */
  function OsOf(name: string, vendor: string, version: string, kernel: string): (o: SqlObject)
    ensures o.table == Tables.OperatingSystem
    ensures o.key == [Name, VersionMajor, VersionMinor, VersionBuild, Vendor, VersionBuildMinor, Kernel]
    ensures o.values.Keys == {Name, VersionMajor, VersionMinor, VersionBuild, Vendor, VersionBuildMinor, Kernel}
    ensures o.values[VersionBuildMinor] == ParseVersion(version).code && o.values[Kernel] == SStr(kernel)
    ensures o.values[Name] == SStr(name) && o.values[Vendor] == SStr(vendor)
  {
    var p := ParseVersion(version);
    New(Tables.OperatingSystem, [Name, VersionMajor, VersionMinor, VersionBuild, Vendor, VersionBuildMinor, Kernel],
        map[Name := SStr(name), Vendor := SStr(vendor), VersionMajor := SInt(p.major),
            VersionMinor := SInt(p.minor), VersionBuild := SInt(p.build),
            VersionBuildMinor := p.code, Kernel := SStr(kernel)])
  }

  /** `Processor(...)`: the core count, thread count and clock are read with `int()`,
      which raises on anything but a signed decimal. */
  function ProcessorOf(name: string, vendor: string, arch: string, clock: string, nprocs: string,
                       nthreads: string): (r: Result<SqlObject>)
    ensures r.Success? <==> PyText.Int(nprocs).Some? && PyText.Int(nthreads).Some? && PyText.Int(clock).Some?
    ensures r.Success? ==>
              && r.value.table == Tables.Processor && r.value.id.None? && r.value.runId.None?
              && r.value.key == [Name, Vendor, ProcessorArchitecture, CoresPerProcessor, ThreadsPerCore, ClockSpeedHz]
              && r.value.values.Keys == {Name, Vendor, ProcessorArchitecture, CoresPerProcessor, ThreadsPerCore, ClockSpeedHz}
              && r.value.values[Name] == SStr(name) && r.value.values[Vendor] == SStr(vendor)
              && r.value.values[ProcessorArchitecture] == SStr(arch)
              && r.value.values[CoresPerProcessor] == SInt(PyText.Int(nprocs).value)
              && r.value.values[ThreadsPerCore] == SInt(PyText.Int(nthreads).value)
              && r.value.values[ClockSpeedHz] == SInt(PyText.Int(clock).value)
  {
    match (PyText.Int(nprocs), PyText.Int(nthreads), PyText.Int(clock))
    case (Some(c), Some(t), Some(h)) =>
      Success(New(Tables.Processor, [Name, Vendor, ProcessorArchitecture, CoresPerProcessor, ThreadsPerCore, ClockSpeedHz],
                  map[Name := SStr(name), Vendor := SStr(vendor), ProcessorArchitecture := SStr(arch),
                      CoresPerProcessor := SInt(c), ThreadsPerCore := SInt(t), ClockSpeedHz := SInt(h)]))
    case _ => Failure("ValueError: invalid literal for int()")
  }

  /** `Flag(flag)`. */
  function FlagOf(flag: string): (o: SqlObject)
    ensures o.table == Tables.Flags && o.key == [Flag] && o.values == map[Flag := SStr(flag)]
    ensures o.id.None? && o.runId.None?
  {
    New(Tables.Flags, [Flag], map[Flag := SStr(flag)])
  }

  /** The ids of a run's six dimensions, each `None` when the dimension was not saved. */
  datatype Dimensions = Dimensions(machine: Option<int>, os: Option<int>, processor: Option<int>,
                                   compiler: Option<int>, mpi: Option<int>, application: Option<int>)

  const RunKey: seq<Col> := [RunCreator, Machine, OperatingSystem, Processor, Compiler, MPI, Application, RunDate, Tag]

  /** The columns of a `Run` row. */
  function RunValues(creator: string, dims: Dimensions, now: string, runDate: string, runId: Option<string>,
                     tag: string, file: string): (m: map<Col, SqlValue>)
    ensures m.Keys == {RunCreator, Date, Private, Machine, OperatingSystem, Processor, Compiler, MPI,
                       Application, RunDate, RunID, Tag, File}
    ensures m[RunCreator] == SStr(creator) && m[RunID] == OptStr(runId) && m[Tag] == SStr(tag)
            && m[Private] == SBool(false) && m[Date] == SDateTime(now) && m[RunDate] == SDateTime(runDate)
    ensures m[Machine] == OptInt(dims.machine) && m[OperatingSystem] == OptInt(dims.os)
            && m[Processor] == OptInt(dims.processor) && m[Compiler] == OptInt(dims.compiler)
            && m[MPI] == OptInt(dims.mpi) && m[Application] == OptInt(dims.application)
  {
    map[RunCreator := SStr(creator), Date := SDateTime(now), Private := SBool(false),
        Machine := OptInt(dims.machine), OperatingSystem := OptInt(dims.os),
        Processor := OptInt(dims.processor), Compiler := OptInt(dims.compiler),
        MPI := OptInt(dims.mpi), Application := OptInt(dims.application),
        RunDate := SDateTime(runDate), RunID := OptStr(runId), Tag := SStr(tag), File := SStr(file)]
  }

  /** Every column of a run has a type the statement can spell. */
  lemma RunValuesPlain(creator: string, dims: Dimensions, now: string, runDate: string, runId: Option<string>,
                       tag: string, file: string)
    ensures var m := RunValues(creator, dims, now, runDate, runId, tag, file);
            forall k :: k in m ==> !m[k].SOther?
  {
  }

  /** `Run(...)`: `now` and `runDate` are the `str()` of the two timestamps. A run with a
      non-empty `run_id` is fetched by it alone. */
  function RunOf(creator: string, dims: Dimensions, now: string, runDate: string, runId: Option<string>,
                 tag: string, file: string): (o: SqlObject)
    ensures o.table == Tables.Run && o.key == RunKey && o.runId == runId && o.id.None?
    ensures o.values == RunValues(creator, dims, now, runDate, runId, tag, file)
  {
    SqlObject(Tables.Run, RunKey, RunValues(creator, dims, now, runDate, runId, tag, file), runId, None)
  }

  /** `SubRun(run, sequence)`. */
  function SubRunOf(run: Option<int>, sequence: int): (o: SqlObject)
    ensures o.table == Tables.SubRun && o.key == [ParentRun, Sequence] && o.id.None? && o.runId.None?
    ensures o.values == map[ParentRun := OptInt(run), Sequence := SInt(sequence)]
  {
    New(Tables.SubRun, [ParentRun, Sequence], map[ParentRun := OptInt(run), Sequence := SInt(sequence)])
  }

  /** `Parameter(sub_run, name, value, rank)`: the typed value and the rank and thread
      decoded from the rank token. The class has no business key. */
  function ParameterOf(subRun: Option<int>, name: string, value: string, rank: string): (r: Result<SqlObject>)
    ensures r.Success? <==> RankToInt(rank, 0).Success? && RankToInt(rank, 1).Success?
    ensures r.Success? ==>
              && r.value.table == Tables.Parameter && r.value.key == []
              && r.value.values.Keys == {Name, Type, SubRunOwner, DoubleValue, IntegerValue, StringValue, Rank, ThreadID}
              && r.value.values[Name] == SStr(name) && r.value.values[SubRunOwner] == OptInt(subRun)
              && r.value.values[Type] == SStr(TypeValue(value).valueType)
              && r.value.values[IntegerValue] == TypeValue(value).integer
              && r.value.values[Rank] == OptInt(RankToInt(rank, 0).value)
              && r.value.values[ThreadID] == OptInt(RankToInt(rank, 1).value)
  {
    var t := TypeValue(value);
    match (RankToInt(rank, 0), RankToInt(rank, 1))
    case (Success(rk), Success(th)) =>
      Success(New(Tables.Parameter, [],
                  map[Name := SStr(name), Type := SStr(t.valueType), SubRunOwner := OptInt(subRun),
                      DoubleValue := t.double, IntegerValue := t.integer, StringValue := t.text,
                      Rank := OptInt(rk), ThreadID := OptInt(th)]))
    case (Failure(e), _) => Failure(e)
    case (_, Failure(e)) => Failure(e)
  }

  /** The columns of a `Result` row. */
  function TimerValues(subRun: Option<int>, name: string, v: real, e: real, rk: Option<int>, th: Option<int>,
                       c: int, p: int): (m: map<Col, SqlValue>)
    ensures m.Keys == {Name, Value, Error, Rank, ThreadID, ErrorType, SubRun, Count, PauseCount}
    ensures m[Name] == SStr(name) && m[Value] == SFloat(v) && m[Error] == SFloat(e)
    ensures m[Rank] == OptInt(rk) && m[ThreadID] == OptInt(th) && m[SubRun] == OptInt(subRun)
    ensures m[ErrorType] == SStr("PMTM_STANDARD") && m[Count] == SInt(c) && m[PauseCount] == SInt(p)
  {
    map[Name := SStr(name), Value := SFloat(v), Error := SFloat(e), Rank := OptInt(rk), ThreadID := OptInt(th),
        ErrorType := SStr("PMTM_STANDARD"), SubRun := OptInt(subRun), Count := SInt(c), PauseCount := SInt(p)]
  }

  /** `Timer(...)`: value and error read with `float()` (given as `float`), count and pause
      with `int()`, error type `PMTM_STANDARD`. The class has no business key. */
  function TimerOf(subRun: Option<int>, name: string, value: string, rank: string, error: string,
                   count: string, pause: string, float: string -> Option<real>): (r: Result<SqlObject>)
    ensures r.Success? <==> float(value).Some? && float(error).Some? && RankToInt(rank, 0).Success?
                            && RankToInt(rank, 1).Success? && PyText.Int(count).Some? && PyText.Int(pause).Some?
    ensures r.Success? ==>
              && r.value.table == Tables.Result && r.value.key == []
              && r.value.values == TimerValues(subRun, name, float(value).value, float(error).value,
                                               RankToInt(rank, 0).value, RankToInt(rank, 1).value,
                                               PyText.Int(count).value, PyText.Int(pause).value)
  {
    if float(value).Some? && float(error).Some? && RankToInt(rank, 0).Success? && RankToInt(rank, 1).Success?
       && PyText.Int(count).Some? && PyText.Int(pause).Some?
    then
      Success(New(Tables.Result, [], TimerValues(subRun, name, float(value).value, float(error).value,
                                            RankToInt(rank, 0).value, RankToInt(rank, 1).value,
                                            PyText.Int(count).value, PyText.Int(pause).value)))
    else Failure("ValueError")
  }

  /** `Overhead(...)`: a timer whose name is prefixed, for all ranks, with count 10000 and
      pause 0; the row's own rank is not used. */
  function OverheadOf(subRun: Option<int>, name: string, value: string, rank: string, error: string,
                      float: string -> Option<real>): Result<SqlObject>
  {
    TimerOf(subRun, "Timer overhead for " + name, value, "All Ranks", error, "10000", "0", float)
  }

  /** `All Ranks` is rank -1 and no thread. */
  lemma AllRanksRank(thread: int)
    ensures RankToInt("All Ranks", thread) == Success(if thread == 1 then None else Some(-1))
  {
    assert Rank.Specials[0].display == "All Ranks";
    RankOfSpecial(0, thread);
  }

  /** `int('10000')` and `int('0')`. */
  lemma OverheadCounts()
    ensures PyText.Int("10000") == Some(10000) && PyText.Int("0") == Some(0)
  {
    PyText.StripUnpadded("10000");
    PyText.StripUnpadded("0");
    assert "10000"[..4] == "1000" && "1000"[..3] == "100" && "100"[..2] == "10" && "10"[..1] == "1";
    assert JavaText.DigitsValue("1") == 1;
    assert JavaText.DigitsValue("10") == 10;
    assert JavaText.DigitsValue("100") == 100;
    assert JavaText.DigitsValue("1000") == 1000;
    assert JavaText.DigitsValue("10000") == 10000;
  }

  /** An overhead is stored as a timer of all ranks with count 10000 and pause 0, its name
      prefixed; it fails only when `float()` does. */
  lemma {:induction false} OverheadIsTimer(subRun: Option<int>, name: string, value: string, rank: string,
                                           error: string, float: string -> Option<real>)
    ensures OverheadOf(subRun, name, value, rank, error, float).Success? <==> float(value).Some? && float(error).Some?
    ensures var r := OverheadOf(subRun, name, value, rank, error, float);
            r.Success? ==>
              && r.value.values[Name] == SStr("Timer overhead for " + name)
              && r.value.values[Rank] == SInt(-1) && r.value.values[ThreadID] == SNone
              && r.value.values[Count] == SInt(10000) && r.value.values[PauseCount] == SInt(0)
  {
    AllRanksRank(0);
    AllRanksRank(1);
    OverheadCounts();
  }

  /** Written as it is, a machine from a file that predates the vendor column can never be
      saved. */
  lemma {:induction false} OldMachineNeverSaved(db: Db, name: string)
    ensures FetchOrSaveAsWritten(db, MachineOf(name, None)).Failure?
  {
    NullKeyNeverSaved(db, MachineOf(name, None), 1);
  }

  /** With `IS NULL`, such a machine is saved once and found again afterwards. */
  lemma {:induction false} OldMachineSaved(db: Db, name: string)
    requires Tables.Machine !in db.refusing
    requires |Matching(Rows(db, Tables.Machine), [(Name, SStr(name)), (Vendor, SNone)], true)| <= 1
    ensures FetchOrSave(db, MachineOf(name, None)).Success?
    ensures FetchOrSave(db, MachineOf(name, None)).value.1.id.Some?
  {
    var o := MachineOf(name, None);
    assert Conditions(o).value == [(Name, SStr(name)), (Vendor, SNone)];
    FetchOrSaveFinds(db, o);
  }

  // ---------------------------------------------------------------------------
  // The objects the importer builds, against their own clauses
  // ---------------------------------------------------------------------------

  /** What the corrected `fetch_or_save` needs of an object: a non-empty clause it can
      spell, a literal for every column, and a `run_id` that is also the stored `RunID`. */
  predicate Keyable(o: SqlObject) {
    && Conditions(o).Success? && Conditions(o).value != []
    && Plain(o.values)
    && (o.runId.Some? && o.runId.value != "" ==> RunID in o.values && o.values[RunID] == SStr(o.runId.value))
  }

  /** Every column has a literal: what `INSERT` needs. */
  predicate Plain(values: map<Col, SqlValue>) {
    forall k :: k in values ==> !values[k].SOther?
  }

  /** Setting a column to a value with a literal keeps a row plain. */
  lemma PlainSet(values: map<Col, SqlValue>, k: Col, v: SqlValue)
    requires Plain(values) && !v.SOther?
    ensures Plain(values[k := v])
  {
  }

  /** A keyable object passes its own clause once stored, under any `ID`; and when no row
      of its table passes that clause yet, the corrected `fetch_or_save` appends exactly
      one row and the object comes back with the `ID` of the one row that passes. */
  lemma {:induction false} KeyableSaved(db: Db, o: SqlObject, id: int)
    requires Keyable(o)
    ensures RowMatches(Row(id, StoredCells(o.values)), Conditions(o).value, true)
    ensures o.id.None? && o.table !in db.refusing && Matching(Rows(db, o.table), Conditions(o).value, true) == [] ==>
              && FetchOrSave(db, o).Success?
              && Appends(db, FetchOrSave(db, o).value.0, o.table, 1)
              && KeyedBy(FetchOrSave(db, o).value.0, o, FetchOrSave(db, o).value.1.id.value, true)
  {
    StoredRowMatches(id, o, Conditions(o).value);
    if o.id.None? && o.table !in db.refusing && Matching(Rows(db, o.table), Conditions(o).value, true) == [] {
      FetchOrSaveFinds(db, o);
      assert Fetch(db, o) == Success(o);
      SaveKeyed(db, o, true);
    }
  }

  /** The clause of an object with a business key and no `run_id`: one test per key column,
      with the column's value. */
  lemma {:induction false} KeyClause(o: SqlObject)
    requires o.runId.None? && forall k :: k in o.values ==> !o.values[k].SOther?
    requires forall k :: 0 <= k < |o.key| ==> o.key[k] in o.values
    ensures Conditions(o).Success?
    ensures |Conditions(o).value| == |o.key|
    ensures forall k :: 0 <= k < |o.key| ==> Conditions(o).value[k] == (o.key[k], o.values[o.key[k]])
  {
  }

  /** Every column of an application has a literal. */
  lemma ApplicationPlain(name: string, version: string)
    ensures Plain(ApplicationOf(name, version).values)
  {
    var p := ParseVersion(version);
    var m0: map<Col, SqlValue> := map[];
    PlainSet(m0, Name, SStr(name));
    var m1 := m0[Name := SStr(name)];
    PlainSet(m1, VersionMajor, SInt(p.major));
    var m2 := m1[VersionMajor := SInt(p.major)];
    PlainSet(m2, VersionMinor, SInt(p.minor));
    var m3 := m2[VersionMinor := SInt(p.minor)];
    PlainSet(m3, VersionBuild, SInt(p.build));
    var m4 := m3[VersionBuild := SInt(p.build)];
    PlainSet(m4, VersionCode, p.code);
    var m5 := m4[VersionCode := p.code];
    PlainSet(m5, Description, SStr(""));
    var m6 := m5[Description := SStr("")];
    PlainSet(m6, Private, SBool(false));
    var m7 := m6[Private := SBool(false)];
    PlainSet(m7, FullName, SStr(""));
  }

  /** Every column of a compiler or an MPI library has a literal. */
  lemma VendorVersionPlain(name: string, vendor: string, version: string)
    ensures Plain(VendorVersionValues(name, vendor, version))
  {
    var p := ParseVersion(version);
    var m0: map<Col, SqlValue> := map[];
    PlainSet(m0, Name, SStr(name));
    var m1 := m0[Name := SStr(name)];
    PlainSet(m1, Vendor, SStr(vendor));
    var m2 := m1[Vendor := SStr(vendor)];
    PlainSet(m2, VersionMajor, SInt(p.major));
    var m3 := m2[VersionMajor := SInt(p.major)];
    PlainSet(m3, VersionMinor, SInt(p.minor));
    var m4 := m3[VersionMinor := SInt(p.minor)];
    PlainSet(m4, VersionBuild, SInt(p.build));
  }

  /** Every column of an operating system has a literal. */
  lemma OsPlain(name: string, vendor: string, version: string, kernel: string)
    ensures Plain(OsOf(name, vendor, version, kernel).values)
  {
    var p := ParseVersion(version);
    var m0: map<Col, SqlValue> := map[];
    PlainSet(m0, Name, SStr(name));
    var m1 := m0[Name := SStr(name)];
    PlainSet(m1, Vendor, SStr(vendor));
    var m2 := m1[Vendor := SStr(vendor)];
    PlainSet(m2, VersionMajor, SInt(p.major));
    var m3 := m2[VersionMajor := SInt(p.major)];
    PlainSet(m3, VersionMinor, SInt(p.minor));
    var m4 := m3[VersionMinor := SInt(p.minor)];
    PlainSet(m4, VersionBuild, SInt(p.build));
    var m5 := m4[VersionBuild := SInt(p.build)];
    PlainSet(m5, VersionBuildMinor, p.code);
    var m6 := m5[VersionBuildMinor := p.code];
    PlainSet(m6, Kernel, SStr(kernel));
  }

  /** Every column of a processor that could be built has a literal. */
  lemma ProcessorPlain(name: string, vendor: string, arch: string, clock: string, nprocs: string, nthreads: string)
    requires ProcessorOf(name, vendor, arch, clock, nprocs, nthreads).Success?
    ensures Plain(ProcessorOf(name, vendor, arch, clock, nprocs, nthreads).value.values)
  {
    var m0: map<Col, SqlValue> := map[];
    PlainSet(m0, Name, SStr(name));
    var m1 := m0[Name := SStr(name)];
    PlainSet(m1, Vendor, SStr(vendor));
    var m2 := m1[Vendor := SStr(vendor)];
    PlainSet(m2, ProcessorArchitecture, SStr(arch));
    var m3 := m2[ProcessorArchitecture := SStr(arch)];
    PlainSet(m3, CoresPerProcessor, SInt(PyText.Int(nprocs).value));
    var m4 := m3[CoresPerProcessor := SInt(PyText.Int(nprocs).value)];
    PlainSet(m4, ThreadsPerCore, SInt(PyText.Int(nthreads).value));
    var m5 := m4[ThreadsPerCore := SInt(PyText.Int(nthreads).value)];
    PlainSet(m5, ClockSpeedHz, SInt(PyText.Int(clock).value));
  }

  /** An application is searched by its name and the parts of its version, but never by
      the build. */
  lemma {:induction false} ApplicationKeyable(name: string, version: string)
    ensures Keyable(ApplicationOf(name, version))
    ensures var c := Conditions(ApplicationOf(name, version)).value;
            (Name, SStr(name)) in c && (VersionCode, ParseVersion(version).code) in c
            && forall k :: 0 <= k < |c| ==> c[k].0 != VersionBuild
  {
    var o := ApplicationOf(name, version);
    ApplicationPlain(name, version);
    KeyClause(o);
    assert Conditions(o).value[0] == (Name, SStr(name));
    assert Conditions(o).value[3] == (VersionCode, ParseVersion(version).code);
    var c := Conditions(o).value;
    forall k | 0 <= k < |c| ensures c[k].0 != VersionBuild {
      assert c[k].0 == o.key[k];
    }
  }

  /** A compiler and an MPI library are searched by name, vendor and the three numeric
      parts of the version. */
  lemma {:induction false} VendorVersionKeyable(name: string, vendor: string, version: string)
    ensures Keyable(CompilerOf(name, vendor, version)) && Keyable(MpiOf(name, vendor, version))
    ensures var c := Conditions(CompilerOf(name, vendor, version)).value;
            c == Conditions(MpiOf(name, vendor, version)).value && |c| == 5
            && (Name, SStr(name)) in c && (Vendor, SStr(vendor)) in c
            && (VersionBuild, SInt(ParseVersion(version).build)) in c
  {
    VendorVersionPlain(name, vendor, version);
    KeyClause(CompilerOf(name, vendor, version));
    KeyClause(MpiOf(name, vendor, version));
    var c := Conditions(CompilerOf(name, vendor, version)).value;
    assert c[0] == (Name, SStr(name)) && c[1] == (Vendor, SStr(vendor));
    assert c[4] == (VersionBuild, SInt(ParseVersion(version).build));
  }

  /** A machine is searched by name and vendor; a missing vendor is searched as `None`. */
  lemma {:induction false} MachineKeyable(name: string, vendor: Option<string>)
    ensures Keyable(MachineOf(name, vendor))
    ensures Conditions(MachineOf(name, vendor)).value == [(Name, SStr(name)), (Vendor, OptStr(vendor))]
  {
    KeyClause(MachineOf(name, vendor));
  }

  /** An operating system is searched by all seven of its columns, the kernel included. */
  lemma {:induction false} OsKeyable(name: string, vendor: string, version: string, kernel: string)
    ensures Keyable(OsOf(name, vendor, version, kernel))
    ensures var c := Conditions(OsOf(name, vendor, version, kernel)).value;
            |c| == 7 && (Kernel, SStr(kernel)) in c && (Vendor, SStr(vendor)) in c
  {
    var o := OsOf(name, vendor, version, kernel);
    OsPlain(name, vendor, version, kernel);
    KeyClause(o);
    assert Conditions(o).value[6] == (Kernel, SStr(kernel)) && Conditions(o).value[4] == (Vendor, SStr(vendor));
  }

  /** A processor that could be built is searched by all six of its columns, the clock as
      the number `int()` read. */
  lemma {:induction false} ProcessorKeyable(name: string, vendor: string, arch: string, clock: string,
                                            nprocs: string, nthreads: string)
    requires ProcessorOf(name, vendor, arch, clock, nprocs, nthreads).Success?
    ensures var o := ProcessorOf(name, vendor, arch, clock, nprocs, nthreads).value;
            Keyable(o) && |Conditions(o).value| == 6
            && (Name, SStr(name)) in Conditions(o).value
            && (ClockSpeedHz, SInt(PyText.Int(clock).value)) in Conditions(o).value
  {
    var o := ProcessorOf(name, vendor, arch, clock, nprocs, nthreads).value;
    ProcessorPlain(name, vendor, arch, clock, nprocs, nthreads);
    KeyClause(o);
    assert Conditions(o).value[0] == (Name, SStr(name));
    assert Conditions(o).value[5] == (ClockSpeedHz, SInt(PyText.Int(clock).value));
  }

  /** A flag is searched by its text. */
  lemma {:induction false} FlagKeyable(flag: string)
    ensures Keyable(FlagOf(flag)) && Conditions(FlagOf(flag)).value == [(Flag, SStr(flag))]
  {
    KeyClause(FlagOf(flag));
  }

  /** A sub-run is searched by its run and its sequence number. */
  lemma {:induction false} SubRunKeyable(run: Option<int>, sequence: int)
    ensures Keyable(SubRunOf(run, sequence))
    ensures Conditions(SubRunOf(run, sequence)).value == [(ParentRun, OptInt(run)), (Sequence, SInt(sequence))]
  {
    KeyClause(SubRunOf(run, sequence));
  }

  /** A run with a non-empty `run_id` is searched by it alone; any other run by its creator,
      its six dimensions, its date and its tag. */
  lemma {:induction false} RunKeyable(creator: string, dims: Dimensions, now: string, runDate: string,
                                      runId: Option<string>, tag: string, file: string)
    ensures Keyable(RunOf(creator, dims, now, runDate, runId, tag, file))
    ensures runId.Some? && runId.value != "" ==>
              Conditions(RunOf(creator, dims, now, runDate, runId, tag, file)).value == [(RunID, SStr(runId.value))]
    ensures runId.None? || runId.value == "" ==>
              var c := Conditions(RunOf(creator, dims, now, runDate, runId, tag, file)).value;
              |c| == 9 && (RunCreator, SStr(creator)) in c && (Tag, SStr(tag)) in c
              && (Machine, OptInt(dims.machine)) in c
  {
    var o := RunOf(creator, dims, now, runDate, runId, tag, file);
    RunValuesPlain(creator, dims, now, runDate, runId, tag, file);
    if runId.None? || runId.value == "" {
      var o' := o.(runId := None);
      KeyClause(o');
      assert Conditions(o) == Conditions(o');
      var c := Conditions(o').value;
      assert c[0] == (RunCreator, SStr(creator)) && c[8] == (Tag, SStr(tag)) && c[1] == (Machine, OptInt(dims.machine));
    }
  }

  /** Parameters and timers have no business key: they cannot be fetched, and `save`
      stores every one of them as a new row. */
  lemma {:induction false} UnkeyedSaved(db: Db, o: SqlObject)
    requires o.key == [] && o.runId.None? && o.id.None?
    requires forall k :: k in o.values ==> !o.values[k].SOther?
    ensures Fetch(db, o).Failure? && !Keyable(o)
    ensures o.table !in db.refusing <==> Save(db, o, false).Success?
    ensures Save(db, o, false).Success? ==> Appends(db, Save(db, o, false).value.0, o.table, 1)
  {
    EmptyKeyUnfetchable(db, o, true);
  }

  /** A parameter that could be built has no key and a literal for every column. */
  lemma {:induction false} ParameterPlain(subRun: Option<int>, name: string, value: string, rank: string)
    ensures var r := ParameterOf(subRun, name, value, rank);
            r.Success? ==> r.value.key == [] && r.value.runId.None? && r.value.id.None? && Plain(r.value.values)
  {
    var t := TypeValue(value);
    match (RankToInt(rank, 0), RankToInt(rank, 1))
    case (Success(rk), Success(th)) =>
      var m0: map<Col, SqlValue> := map[];
      PlainSet(m0, Name, SStr(name));
      var m1 := m0[Name := SStr(name)];
      PlainSet(m1, Type, SStr(t.valueType));
      var m2 := m1[Type := SStr(t.valueType)];
      PlainSet(m2, SubRunOwner, OptInt(subRun));
      var m3 := m2[SubRunOwner := OptInt(subRun)];
      PlainSet(m3, DoubleValue, t.double);
      var m4 := m3[DoubleValue := t.double];
      PlainSet(m4, IntegerValue, t.integer);
      var m5 := m4[IntegerValue := t.integer];
      PlainSet(m5, StringValue, t.text);
      var m6 := m5[StringValue := t.text];
      PlainSet(m6, Rank, OptInt(rk));
      var m7 := m6[Rank := OptInt(rk)];
      PlainSet(m7, ThreadID, OptInt(th));
    case _ =>
  }

  /** Every column of a timer has a literal. */
  lemma TimerValuesPlain(subRun: Option<int>, name: string, v: real, e: real, rk: Option<int>, th: Option<int>,
                         c: int, p: int)
    ensures Plain(TimerValues(subRun, name, v, e, rk, th, c, p))
  {
    var m0: map<Col, SqlValue> := map[];
    PlainSet(m0, Name, SStr(name));
    var m1 := m0[Name := SStr(name)];
    PlainSet(m1, Value, SFloat(v));
    var m2 := m1[Value := SFloat(v)];
    PlainSet(m2, Error, SFloat(e));
    var m3 := m2[Error := SFloat(e)];
    PlainSet(m3, Rank, OptInt(rk));
    var m4 := m3[Rank := OptInt(rk)];
    PlainSet(m4, ThreadID, OptInt(th));
    var m5 := m4[ThreadID := OptInt(th)];
    PlainSet(m5, ErrorType, SStr("PMTM_STANDARD"));
    var m6 := m5[ErrorType := SStr("PMTM_STANDARD")];
    PlainSet(m6, SubRun, OptInt(subRun));
    var m7 := m6[SubRun := OptInt(subRun)];
    PlainSet(m7, Count, SInt(c));
    var m8 := m7[Count := SInt(c)];
    PlainSet(m8, PauseCount, SInt(p));
  }

  /** A timer that could be built has no key and a literal for every column. */
  lemma {:induction false} TimerPlain(subRun: Option<int>, name: string, value: string, rank: string,
                                      error: string, count: string, pause: string, float: string -> Option<real>)
    ensures var r := TimerOf(subRun, name, value, rank, error, count, pause, float);
            r.Success? ==> r.value.key == [] && r.value.runId.None? && r.value.id.None? && Plain(r.value.values)
  {
    var r := TimerOf(subRun, name, value, rank, error, count, pause, float);
    if r.Success? {
      TimerValuesPlain(subRun, name, float(value).value, float(error).value, RankToInt(rank, 0).value,
                       RankToInt(rank, 1).value, PyText.Int(count).value, PyText.Int(pause).value);
    }
  }
}
