/** `pmtm_import`: the importer's orchestration. `PmtmSqlStore.save` upserts the dimensions
    of a parsed file, its flags, the run, one sub-run and the run's measurements, in that
    order; `main` commits only when the whole save succeeded and the run is not a dry run. */
module PmtmImport {
  import opened Wrappers
  import opened PmtmSqlValues
  import opened PmtmSql
  import PmtmReader
  import Tables

  // ---------------------------------------------------------------------------
  // The environment
  // ---------------------------------------------------------------------------

  /** What the importer takes from outside the file and the database: `os.getlogin()`
      (`None` when it raises), the `str()` of the current timestamp and of a timestamp
      built from a tick count, `float()` on text, the name of the store directory and whether
      copying the file there succeeds. */
  datatype Env = Env(login: Option<string>, now: string, timestamp: real -> string,
                     float: string -> Option<real>, storeFile: string, copied: bool)

  // ---------------------------------------------------------------------------
  // The order of the steps
  // ---------------------------------------------------------------------------

  /** The tables `save` writes, in the order of its steps. */
  const Steps: seq<Tables.Table> :=
    [Tables.Application, Tables.Compiler, Tables.Machine, Tables.MPI, Tables.OperatingSystem, Tables.Processor,
     Tables.Flags, Tables.Run, Tables.SubRun, Tables.Parameter, Tables.Result]

  /** The step that writes a table. */
  function StepIndex(t: Tables.Table): (k: nat)
    ensures k < |Steps| && Steps[k] == t
  {
    match t
    case Application => 0
    case Compiler => 1
    case Machine => 2
    case MPI => 3
    case OperatingSystem => 4
    case Processor => 5
    case Flags => 6
    case Run => 7
    case SubRun => 8
    case Parameter => 9
    case Result => 10
  }

  /** Going from `a` to `c` only appended rows, to the tables of steps `lo` to `hi`, in step
      order; every other table is unchanged. */
  ghost predicate Grows(a: Db, c: Db, lo: int, hi: int) {
    && a.refusing == c.refusing
    && a.log <= c.log
    && (forall i, j :: |a.log| <= i < j < |c.log| ==> StepIndex(c.log[i]) <= StepIndex(c.log[j]))
    && (forall i :: |a.log| <= i < |c.log| ==> lo <= StepIndex(c.log[i]) <= hi)
    && (forall u :: Rows(a, u) <= Rows(c, u))
    && (forall u :: StepIndex(u) < lo || hi < StepIndex(u) ==> Rows(c, u) == Rows(a, u))
  }

  /** Appending to the table of one step is growth within that step. */
  lemma {:induction false} AppendsGrows(a: Db, b: Db, t: Tables.Table, n: nat, k: int)
    requires Appends(a, b, t, n) && StepIndex(t) == k
    ensures Grows(a, b, k, k)
  {
  }

  /** An upsert, which appends at most one row to the table of step `k`, is growth within
      that step. */
  lemma UpsertGrows(a: Db, b: Db, t: Tables.Table, k: int)
    requires Appends(a, b, t, 0) || Appends(a, b, t, 1)
    requires StepIndex(t) == k
    ensures Grows(a, b, k, k)
  {
    if Appends(a, b, t, 0) {
      AppendsGrows(a, b, t, 0, k);
    } else {
      AppendsGrows(a, b, t, 1, k);
    }
  }

  /** Growth in earlier steps followed by growth in later ones is growth across them all. */
  lemma {:induction false} GrowsTrans(a: Db, b: Db, c: Db, lo: int, m: int, m2: int, hi: int)
    requires Grows(a, b, lo, m) && Grows(b, c, m2, hi) && lo <= m <= hi && m <= m2
    ensures Grows(a, c, lo, hi)
  {
    assert a.log <= c.log by {
      assert c.log[..|a.log|] == b.log[..|a.log|];
    }
    forall u ensures Rows(a, u) <= Rows(c, u) {
      assert Rows(a, u) <= Rows(b, u) && Rows(b, u) <= Rows(c, u);
      assert Rows(c, u)[..|Rows(a, u)|] == Rows(b, u)[..|Rows(a, u)|];
    }
    forall i, j | |a.log| <= i < j < |c.log| ensures StepIndex(c.log[i]) <= StepIndex(c.log[j]) {
      if i < |b.log| && j >= |b.log| {
        assert c.log[i] == b.log[i];
      } else if j < |b.log| {
        assert c.log[i] == b.log[i] && c.log[j] == b.log[j];
      }
    }
    forall i | |a.log| <= i < |c.log| ensures lo <= StepIndex(c.log[i]) <= hi {
      if i < |b.log| {
        assert c.log[i] == b.log[i];
      }
    }
  }

  /** Growth up to step `hi` leaves the tables of later steps alone. */
  lemma LaterKept(a: Db, c: Db, hi: int, t: Tables.Table)
    requires Grows(a, c, 0, hi) && hi < StepIndex(t)
    ensures Rows(c, t) == Rows(a, t)
  {
  }

  /** Growth within steps `lo` to `hi` leaves the tables of the other steps alone. */
  lemma OutsideKept(a: Db, c: Db, lo: int, hi: int, t: Tables.Table)
    requires Grows(a, c, lo, hi) && (StepIndex(t) < lo || hi < StepIndex(t))
    ensures Rows(c, t) == Rows(a, t)
  {
  }

  /** A step that writes nothing. */
  lemma {:induction false} GrowsRefl(a: Db, lo: int, hi: int)
    ensures Grows(a, a, lo, hi)
  {
  }

  // ---------------------------------------------------------------------------
  // The dimensions
  // ---------------------------------------------------------------------------

  /** `save_application` and its siblings: a dimension the file has is upserted with
      `fetch_or_save`; one it lacks (`None`) is skipped. */
  function SaveDimension(db: Db, o: Option<SqlObject>, nullSafe: bool): (r: Result<(Db, Option<int>)>)
    requires o.Some? ==> o.value.id.None?
    ensures o.None? ==> r == Success((db, None))
    ensures o.Some? ==> (r.Success? <==> FetchOrSaveWith(db, o.value, nullSafe).Success?)
    ensures o.Some? && r.Success? ==>
              && r.value.1.Some? && KeyedBy(r.value.0, o.value, r.value.1.value, nullSafe)
              && (Appends(db, r.value.0, o.value.table, 0) || Appends(db, r.value.0, o.value.table, 1))
  {
    match o
    case None => Success((db, None))
    case Some(x) =>
      match FetchOrSaveWith(db, x, nullSafe)
      case Failure(e) => Failure(e)
      case Success(s) =>
        FetchOrSaveKeyed(db, x, nullSafe);
        Success((s.0, s.1.id))
  }

  function ApplicationObject(a: Option<PmtmReader.Application>): (o: Option<SqlObject>)
    ensures o.Some? <==> a.Some?
    ensures o.Some? ==> o.value.id.None? && o.value.table == Tables.Application
  {
    if a.Some? then Some(ApplicationOf(a.value.name, a.value.version)) else None
  }

  function CompilerObject(c: Option<PmtmReader.Compiler>): (o: Option<SqlObject>)
    ensures o.Some? <==> c.Some?
    ensures o.Some? ==> o.value.id.None? && o.value.table == Tables.Compiler
  {
    if c.Some? then Some(CompilerOf(c.value.name, c.value.vendor, c.value.version)) else None
  }

  function MachineObject(m: Option<PmtmReader.Machine>): (o: Option<SqlObject>)
    ensures o.Some? <==> m.Some?
    ensures o.Some? ==> o.value.id.None? && o.value.table == Tables.Machine
  {
    if m.Some? then Some(MachineOf(m.value.name, m.value.vendor)) else None
  }

  function MpiObject(m: Option<PmtmReader.Mpi>): (o: Option<SqlObject>)
    ensures o.Some? <==> m.Some?
    ensures o.Some? ==> o.value.id.None? && o.value.table == Tables.MPI
  {
    if m.Some? then Some(MpiOf(m.value.name, m.value.vendor, m.value.version)) else None
  }

  function OsObject(s: Option<PmtmReader.Os>): (o: Option<SqlObject>)
    ensures o.Some? <==> s.Some?
    ensures o.Some? ==> o.value.id.None? && o.value.table == Tables.OperatingSystem
  {
    if s.Some? then Some(OsOf(s.value.name, s.value.vendor, s.value.version, s.value.kernel)) else None
  }

  /** The processor's record, whose construction can raise in `int()`. */
  function ProcessorObject(p: Option<PmtmReader.Processor>): (r: Result<Option<SqlObject>>)
    ensures r.Success? ==> (r.value.Some? <==> p.Some?)
    ensures r.Success? && r.value.Some? ==> r.value.value.id.None? && r.value.value.table == Tables.Processor
  {
    match p
    case None => Success(None)
    case Some(x) =>
      match ProcessorOf(x.name, x.vendor, x.arch, x.clock, x.nprocs, x.nthreads)
      case Failure(e) => Failure(e)
      case Success(o) => Success(Some(o))
  }

  /** Consecutive dimension steps, one per object. */
  function SaveList(db: Db, objs: seq<Option<SqlObject>>, nullSafe: bool): (r: Result<(Db, seq<Option<int>>)>)
    requires forall i :: 0 <= i < |objs| && objs[i].Some? ==> objs[i].value.id.None?
    ensures r.Success? ==> |r.value.1| == |objs|
    decreases |objs|
  {
    if objs == [] then Success((db, []))
    else
      var first :- SaveDimension(db, objs[0], nullSafe);
      var rest :- SaveList(first.0, objs[1..], nullSafe);
      Success((rest.0, [first.1] + rest.1))
  }

  /** The objects of the first five dimensions, in the order `save` upserts them. */
  function FirstFive(rd: PmtmReader.Reader): (objs: seq<Option<SqlObject>>)
    ensures |objs| == 5
    ensures objs[0].Some? ==> objs[0].value.id.None? && objs[0].value.table == Tables.Application
    ensures objs[1].Some? ==> objs[1].value.id.None? && objs[1].value.table == Tables.Compiler
    ensures objs[2].Some? ==> objs[2].value.id.None? && objs[2].value.table == Tables.Machine
    ensures objs[3].Some? ==> objs[3].value.id.None? && objs[3].value.table == Tables.MPI
    ensures objs[4].Some? ==> objs[4].value.id.None? && objs[4].value.table == Tables.OperatingSystem
    ensures (objs[0].None? <==> rd.application.None?) && (objs[1].None? <==> rd.compiler.None?)
    ensures (objs[2].None? <==> rd.machine.None?) && (objs[3].None? <==> rd.mpi.None?)
    ensures objs[4].None? <==> rd.os.None?
  {
    [ApplicationObject(rd.application), CompilerObject(rd.compiler), MachineObject(rd.machine),
     MpiObject(rd.mpi), OsObject(rd.os)]
  }

  /** The six dimension steps, in the order `save` runs them. */
  function SaveDimensions(db: Db, rd: PmtmReader.Reader, nullSafe: bool): Result<(Db, Dimensions)> {
    var five :- SaveList(db, FirstFive(rd), nullSafe);
    var po :- ProcessorObject(rd.processor);
    var q :- SaveDimension(five.0, po, nullSafe);
    var ids := five.1;
    Success((q.0, Dimensions(ids[2], ids[4], q.1, ids[1], ids[3], ids[0])))
  }

  /** Every object there is has no id yet and belongs to the table of step `k0` plus its
      position. */
  predicate Placed(objs: seq<Option<SqlObject>>, k0: nat) {
    forall i :: 0 <= i < |objs| && objs[i].Some? ==> objs[i].value.id.None? && StepIndex(objs[i].value.table) == k0 + i
  }

  /** The first five dimension objects are placed at the first five steps. */
  lemma FirstFivePlaced(rd: PmtmReader.Reader)
    ensures Placed(FirstFive(rd), 0)
  {
    FivePlaced(FirstFive(rd));
  }

  /** Five objects for the first five tables, in step order, are placed from step 0. */
  lemma FivePlaced(objs: seq<Option<SqlObject>>)
    requires |objs| == 5
    requires objs[0].Some? ==> objs[0].value.id.None? && objs[0].value.table == Tables.Application
    requires objs[1].Some? ==> objs[1].value.id.None? && objs[1].value.table == Tables.Compiler
    requires objs[2].Some? ==> objs[2].value.id.None? && objs[2].value.table == Tables.Machine
    requires objs[3].Some? ==> objs[3].value.id.None? && objs[3].value.table == Tables.MPI
    requires objs[4].Some? ==> objs[4].value.id.None? && objs[4].value.table == Tables.OperatingSystem
    ensures Placed(objs, 0)
  {
  }

  /** One dimension step grows only its own table. */
  lemma {:induction false} DimensionGrows(db: Db, o: Option<SqlObject>, t: Tables.Table, nullSafe: bool)
    requires o.Some? ==> o.value.id.None? && o.value.table == t
    requires SaveDimension(db, o, nullSafe).Success?
    ensures Grows(db, SaveDimension(db, o, nullSafe).value.0, StepIndex(t), StepIndex(t))
    ensures o.None? ==> SaveDimension(db, o, nullSafe).value == (db, None)
    ensures o.Some? ==> SaveDimension(db, o, nullSafe).value.1.Some?
  {
    var r := SaveDimension(db, o, nullSafe).value;
    if o.None? {
      GrowsRefl(db, StepIndex(t), StepIndex(t));
    } else if Appends(db, r.0, t, 0) {
      AppendsGrows(db, r.0, t, 0, StepIndex(t));
    } else {
      AppendsGrows(db, r.0, t, 1, StepIndex(t));
    }
  }

  /** The dimension tables are the first six steps. */
  lemma DimensionSteps()
    ensures Steps[0] == Tables.Application && Steps[1] == Tables.Compiler && Steps[2] == Tables.Machine
    ensures Steps[3] == Tables.MPI && Steps[4] == Tables.OperatingSystem && Steps[5] == Tables.Processor
  {
  }

  /** Each step's table has that step's index. */
  lemma StepIndexOf(k: nat)
    requires k < |Steps|
    ensures StepIndex(Steps[k]) == k
  {
  }

  /** A successful run of dimension steps is its first step followed by the rest. */
  lemma {:induction false} SaveListCons(db: Db, objs: seq<Option<SqlObject>>, nullSafe: bool)
    requires objs != [] && forall i :: 0 <= i < |objs| && objs[i].Some? ==> objs[i].value.id.None?
    requires SaveList(db, objs, nullSafe).Success?
    ensures SaveDimension(db, objs[0], nullSafe).Success?
    ensures var first := SaveDimension(db, objs[0], nullSafe).value;
            && SaveList(first.0, objs[1..], nullSafe).Success?
            && SaveList(db, objs, nullSafe).value.0 == SaveList(first.0, objs[1..], nullSafe).value.0
            && SaveList(db, objs, nullSafe).value.1 == [first.1] + SaveList(first.0, objs[1..], nullSafe).value.1
  {
  }

  /** Consecutive dimension steps write their tables in order. */
  lemma {:induction false} ListGrows(db: Db, objs: seq<Option<SqlObject>>, k0: nat, nullSafe: bool)
    decreases |objs|
    requires k0 + |objs| <= |Steps|
    requires Placed(objs, k0)
    requires SaveList(db, objs, nullSafe).Success?
    ensures Grows(db, SaveList(db, objs, nullSafe).value.0, k0, k0 + |objs| - 1)
  {
    if objs == [] {
      GrowsRefl(db, k0, k0 - 1);
    } else {
      SaveListCons(db, objs, nullSafe);
      var first := SaveDimension(db, objs[0], nullSafe).value;
      StepIndexOf(k0);
      assert objs[0].Some? ==> objs[0].value.table == Steps[k0];
      DimensionGrows(db, objs[0], Steps[k0], nullSafe);
      var tail := objs[1..];
      assert forall i :: 0 <= i < |tail| ==> tail[i] == objs[i + 1];
      assert Placed(tail, k0 + 1);
      ListGrows(first.0, tail, k0 + 1, nullSafe);
      GrowsTrans(db, first.0, SaveList(first.0, tail, nullSafe).value.0, k0, k0, k0 + 1, k0 + |objs| - 1);
    }
  }

  /** Consecutive dimension steps give an id to each object there is, and to no other. */
  lemma {:induction false} ListIds(db: Db, objs: seq<Option<SqlObject>>, nullSafe: bool)
    requires forall i :: 0 <= i < |objs| && objs[i].Some? ==> objs[i].value.id.None?
    requires SaveList(db, objs, nullSafe).Success?
    ensures var ids := SaveList(db, objs, nullSafe).value.1;
            forall i :: 0 <= i < |objs| ==> (ids[i].None? <==> objs[i].None?)
    decreases |objs|
  {
    if objs != [] {
      SaveListCons(db, objs, nullSafe);
      var tail := objs[1..];
      assert forall i :: 0 <= i < |tail| ==> tail[i] == objs[i + 1];
      ListIds(SaveDimension(db, objs[0], nullSafe).value.0, tail, nullSafe);
      var ids := SaveList(db, objs, nullSafe).value.1;
      forall i | 0 <= i < |objs| ensures ids[i].None? <==> objs[i].None? {
        if i > 0 {
          assert objs[i] == tail[i - 1];
        }
      }
    }
  }

  /** Going from `a` to `c` left alone the table of each absent object, the objects being
      those of the steps from `k0` on. */
  ghost predicate AbsentKept(a: Db, c: Db, objs: seq<Option<SqlObject>>, k0: nat) {
    forall i :: 0 <= i < |objs| && objs[i].None? && k0 + i < |Steps| ==> Rows(c, Steps[k0 + i]) == Rows(a, Steps[k0 + i])
  }

  /** Consecutive dimension steps leave alone the table of each object that is absent. */
  lemma ListSkips(db: Db, objs: seq<Option<SqlObject>>, k0: nat, nullSafe: bool)
    requires k0 + |objs| <= |Steps|
    requires Placed(objs, k0)
    requires SaveList(db, objs, nullSafe).Success?
    ensures AbsentKept(db, SaveList(db, objs, nullSafe).value.0, objs, k0)
  {
    forall i | 0 <= i < |objs| && objs[i].None?
      ensures Rows(SaveList(db, objs, nullSafe).value.0, Steps[k0 + i]) == Rows(db, Steps[k0 + i])
    {
      ListSkipsAt(db, objs, k0, nullSafe, i);
    }
  }

  /** The table of the `i`-th object, when that object is absent, is left alone by
      consecutive dimension steps: the steps before it write only earlier tables, its own
      step writes nothing, and the steps after it write only later tables. */
  lemma {:induction false} ListSkipsAt(db: Db, objs: seq<Option<SqlObject>>, k0: nat, nullSafe: bool, i: nat)
    requires k0 + |objs| <= |Steps|
    requires Placed(objs, k0)
    requires SaveList(db, objs, nullSafe).Success?
    requires i < |objs| && objs[i].None?
    ensures Rows(SaveList(db, objs, nullSafe).value.0, Steps[k0 + i]) == Rows(db, Steps[k0 + i])
    decreases i
  {
    SaveListCons(db, objs, nullSafe);
    var mid := SaveDimension(db, objs[0], nullSafe).value.0;
    var tail := objs[1..];
    PlacedTail(objs, k0);
    var last := SaveList(mid, tail, nullSafe).value.0;
    assert SaveList(db, objs, nullSafe).value.0 == last;
    StepIndexOf(k0 + i);
    if i == 0 {
      FirstAbsentKept(db, objs, k0, nullSafe);
    } else {
      assert tail[i - 1].None? && k0 + 1 + (i - 1) == k0 + i;
      ListSkipsAt(mid, tail, k0 + 1, nullSafe, i - 1);
      HeadStepGrows(db, objs, k0, nullSafe);
      OutsideKept(db, mid, k0, k0, Steps[k0 + i]);
    }
  }

  /** Objects placed from `k0` leave their tail placed from `k0 + 1`. */
  lemma PlacedTail(objs: seq<Option<SqlObject>>, k0: nat)
    requires objs != [] && Placed(objs, k0)
    ensures Placed(objs[1..], k0 + 1)
  {
    var tail := objs[1..];
    assert forall j :: 0 <= j < |tail| ==> tail[j] == objs[j + 1];
  }

  /** The first dimension step grows only the table of its step. */
  lemma HeadStepGrows(db: Db, objs: seq<Option<SqlObject>>, k0: nat, nullSafe: bool)
    requires k0 < |Steps| && objs != [] && Placed(objs, k0)
    requires SaveDimension(db, objs[0], nullSafe).Success?
    ensures Grows(db, SaveDimension(db, objs[0], nullSafe).value.0, k0, k0)
  {
    StepIndexOf(k0);
    DimensionGrows(db, objs[0], Steps[k0], nullSafe);
  }

  /** An absent first object leaves its own table alone through all the steps. */
  lemma FirstAbsentKept(db: Db, objs: seq<Option<SqlObject>>, k0: nat, nullSafe: bool)
    requires k0 + |objs| <= |Steps| && objs != [] && objs[0].None?
    requires Placed(objs[1..], k0 + 1)
    requires SaveDimension(db, objs[0], nullSafe).Success?
    requires SaveList(SaveDimension(db, objs[0], nullSafe).value.0, objs[1..], nullSafe).Success?
    ensures Rows(SaveList(SaveDimension(db, objs[0], nullSafe).value.0, objs[1..], nullSafe).value.0, Steps[k0])
         == Rows(db, Steps[k0])
  {
    var mid := SaveDimension(db, objs[0], nullSafe).value.0;
    var tail := objs[1..];
    assert mid == db by {
      DimensionGrows(db, objs[0], Steps[k0], nullSafe);
    }
    ListGrows(mid, tail, k0 + 1, nullSafe);
    StepIndexOf(k0);
    OutsideKept(mid, SaveList(mid, tail, nullSafe).value.0, k0 + 1, k0 + |objs| - 1, Steps[k0]);
  }

  /** A successful run of the dimension steps is the five list steps and the processor. */
  lemma {:induction false} SaveDimensionsParts(db: Db, rd: PmtmReader.Reader, nullSafe: bool)
    requires SaveDimensions(db, rd, nullSafe).Success?
    ensures SaveList(db, FirstFive(rd), nullSafe).Success? && ProcessorObject(rd.processor).Success?
    ensures var five := SaveList(db, FirstFive(rd), nullSafe).value;
            var po := ProcessorObject(rd.processor).value;
            && SaveDimension(five.0, po, nullSafe).Success?
            && var q := SaveDimension(five.0, po, nullSafe).value;
               SaveDimensions(db, rd, nullSafe).value
               == (q.0, Dimensions(five.1[2], five.1[4], q.1, five.1[1], five.1[3], five.1[0]))
  {
  }

  /** The dimension steps write the first six tables, in order. */
  lemma {:induction false} DimensionsInOrder(db: Db, rd: PmtmReader.Reader, nullSafe: bool)
    requires SaveDimensions(db, rd, nullSafe).Success?
    ensures Grows(db, SaveDimensions(db, rd, nullSafe).value.0, 0, 5)
  {
    SaveDimensionsParts(db, rd, nullSafe);
    FirstFivePlaced(rd);
    ListThenProcessorGrows(db, FirstFive(rd), ProcessorObject(rd.processor).value, nullSafe);
  }

  /** The five list steps and then the processor step grow the first six tables. */
  lemma ListThenProcessorGrows(db: Db, objs: seq<Option<SqlObject>>, po: Option<SqlObject>, nullSafe: bool)
    requires |objs| == 5 && Placed(objs, 0)
    requires po.Some? ==> po.value.id.None? && po.value.table == Tables.Processor
    requires SaveList(db, objs, nullSafe).Success?
    requires SaveDimension(SaveList(db, objs, nullSafe).value.0, po, nullSafe).Success?
    ensures Grows(db, SaveDimension(SaveList(db, objs, nullSafe).value.0, po, nullSafe).value.0, 0, 5)
  {
    var five := SaveList(db, objs, nullSafe).value.0;
    var six := SaveDimension(five, po, nullSafe).value.0;
    assert Grows(db, five, 0, 4) by {
      ListGrows(db, objs, 0, nullSafe);
    }
    assert Grows(five, six, 5, 5) by {
      DimensionGrows(five, po, Tables.Processor, nullSafe);
    }
    GrowsTrans(db, five, six, 0, 4, 5, 5);
  }

  /** Every dimension the file has gets an id, and only those. */
  lemma {:induction false} DimensionIds(db: Db, rd: PmtmReader.Reader, nullSafe: bool)
    requires SaveDimensions(db, rd, nullSafe).Success?
    ensures var dims := SaveDimensions(db, rd, nullSafe).value.1;
            && (dims.application.None? <==> rd.application.None?)
            && (dims.compiler.None? <==> rd.compiler.None?)
            && (dims.machine.None? <==> rd.machine.None?)
            && (dims.mpi.None? <==> rd.mpi.None?)
            && (dims.os.None? <==> rd.os.None?)
            && (dims.processor.None? <==> rd.processor.None?)
  {
    SaveDimensionsParts(db, rd, nullSafe);
    FirstFivePlaced(rd);
    ListIds(db, FirstFive(rd), nullSafe);
    var five := SaveList(db, FirstFive(rd), nullSafe).value;
    DimensionGrows(five.0, ProcessorObject(rd.processor).value, Tables.Processor, nullSafe);
  }

  /** Growth confined to a later step keeps the tables an earlier step left alone. */
  lemma KeptThrough(db: Db, mid: Db, db2: Db, objs: seq<Option<SqlObject>>, lo: nat)
    requires |objs| <= lo < |Steps|
    requires AbsentKept(db, mid, objs, 0)
    requires Grows(mid, db2, lo, lo)
    ensures AbsentKept(db, db2, objs, 0)
  {
    forall i | 0 <= i < |objs| && objs[i].None?
      ensures Rows(db2, Steps[i]) == Rows(db, Steps[i])
    {
      StepIndexOf(i);
    }
  }

  /** The five list steps and then the processor's step leave alone the table of every
      object that is absent. */
  lemma {:induction false} SixKept(db: Db, objs: seq<Option<SqlObject>>, po: Option<SqlObject>, nullSafe: bool)
    requires |objs| == 5 && Placed(objs, 0)
    requires po.Some? ==> po.value.id.None? && po.value.table == Tables.Processor
    requires SaveList(db, objs, nullSafe).Success?
    requires SaveDimension(SaveList(db, objs, nullSafe).value.0, po, nullSafe).Success?
    ensures var db2 := SaveDimension(SaveList(db, objs, nullSafe).value.0, po, nullSafe).value.0;
            && (forall i :: 0 <= i < 5 && objs[i].None? ==> Rows(db2, Steps[i]) == Rows(db, Steps[i]))
            && (po.None? ==> Rows(db2, Tables.Processor) == Rows(db, Tables.Processor))
  {
    var mid := SaveList(db, objs, nullSafe).value.0;
    var six := SaveDimension(mid, po, nullSafe).value.0;
    assert AbsentKept(db, mid, objs, 0) && Grows(db, mid, 0, 4) by {
      ListSkips(db, objs, 0, nullSafe);
      ListGrows(db, objs, 0, nullSafe);
    }
    assert Grows(mid, six, 5, 5) && (po.None? ==> six == mid) by {
      DimensionGrows(mid, po, Tables.Processor, nullSafe);
    }
    KeptThrough(db, mid, six, objs, 5);
    OutsideKept(db, mid, 0, 4, Tables.Processor);
  }

  /** The table of a dimension the file lacks is left alone. */
  lemma {:induction false} AbsentTablesKept(db: Db, rd: PmtmReader.Reader, nullSafe: bool)
    requires SaveDimensions(db, rd, nullSafe).Success?
    ensures var db2 := SaveDimensions(db, rd, nullSafe).value.0;
            && (rd.application.None? ==> Rows(db2, Tables.Application) == Rows(db, Tables.Application))
            && (rd.compiler.None? ==> Rows(db2, Tables.Compiler) == Rows(db, Tables.Compiler))
            && (rd.machine.None? ==> Rows(db2, Tables.Machine) == Rows(db, Tables.Machine))
            && (rd.mpi.None? ==> Rows(db2, Tables.MPI) == Rows(db, Tables.MPI))
            && (rd.os.None? ==> Rows(db2, Tables.OperatingSystem) == Rows(db, Tables.OperatingSystem))
            && (rd.processor.None? ==> Rows(db2, Tables.Processor) == Rows(db, Tables.Processor))
  {
    SaveDimensionsParts(db, rd, nullSafe);
    FirstFivePlaced(rd);
    var objs := FirstFive(rd);
    var po := ProcessorObject(rd.processor).value;
    SixKept(db, objs, po, nullSafe);
    DimensionSteps();
  }

  // ---------------------------------------------------------------------------
  // The flags
  // ---------------------------------------------------------------------------

  /** `save_flags`: every flag is upserted with `fetch_or_save`, in file order; an empty one
      (from two adjacent separators) is skipped. */
  function SaveFlags(db: Db, flags: seq<string>, nullSafe: bool): Result<Db>
    decreases |flags|
  {
    if flags == [] then Success(db)
    else if flags[0] == "" then SaveFlags(db, flags[1..], nullSafe)
    else
      var s :- FetchOrSaveWith(db, FlagOf(flags[0]), nullSafe);
      SaveFlags(s.0, flags[1..], nullSafe)
  }

  /** The flags that are not empty, in order. */
  function NonEmpty(flags: seq<string>): (r: seq<string>)
    ensures forall k :: 0 <= k < |r| ==> r[k] != "" && r[k] in flags
    ensures forall f :: f in flags && f != "" ==> f in r
  {
    if flags == [] then []
    else
      var rest := NonEmpty(flags[1..]);
      assert forall f :: f in flags[1..] ==> f in flags;
      assert forall f :: f in flags ==> f == flags[0] || f in flags[1..];
      if flags[0] == "" then rest else [flags[0]] + rest
  }

  /** Empty flags make no difference: saving the list is saving its non-empty flags. */
  lemma {:induction false} FlagsIgnoreEmpty(db: Db, flags: seq<string>, nullSafe: bool)
    ensures SaveFlags(db, flags, nullSafe) == SaveFlags(db, NonEmpty(flags), nullSafe)
    decreases |flags|
  {
    if flags != [] {
      var rest := flags[1..];
      if flags[0] == "" {
        FlagsIgnoreEmpty(db, rest, nullSafe);
      } else {
        var nf := NonEmpty(flags);
        assert nf[0] == flags[0] && nf[1..] == NonEmpty(rest);
        match FetchOrSaveWith(db, FlagOf(flags[0]), nullSafe)
        case Failure(_) =>
        case Success(s) => FlagsIgnoreEmpty(s.0, rest, nullSafe);
      }
    }
  }

  /** Saving the flags grows only the flag table. */
  lemma {:induction false} FlagsGrow(db: Db, flags: seq<string>, nullSafe: bool)
    requires SaveFlags(db, flags, nullSafe).Success?
    ensures Grows(db, SaveFlags(db, flags, nullSafe).value, 6, 6)
    decreases |flags|
  {
    if flags == [] {
      GrowsRefl(db, 6, 6);
    } else if flags[0] == "" {
      FlagsGrow(db, flags[1..], nullSafe);
    } else {
      var s := FetchOrSaveWith(db, FlagOf(flags[0]), nullSafe).value;
      assert SaveFlags(db, flags, nullSafe) == SaveFlags(s.0, flags[1..], nullSafe);
      FlagStepGrows(db, flags[0], nullSafe);
      FlagsGrow(s.0, flags[1..], nullSafe);
      GrowsTrans(db, s.0, SaveFlags(s.0, flags[1..], nullSafe).value, 6, 6, 6, 6);
    }
  }

  /** Upserting one flag is growth within the flags step. */
  lemma FlagStepGrows(db: Db, f: string, nullSafe: bool)
    requires FetchOrSaveWith(db, FlagOf(f), nullSafe).Success?
    ensures Grows(db, FetchOrSaveWith(db, FlagOf(f), nullSafe).value.0, 6, 6)
  {
    var o := FlagOf(f);
    var s := FetchOrSaveWith(db, o, nullSafe).value;
    FetchOrSaveKeyed(db, o, nullSafe);
    if Appends(db, s.0, Tables.Flags, 0) {
      AppendsGrows(db, s.0, Tables.Flags, 0, 6);
    } else {
      AppendsGrows(db, s.0, Tables.Flags, 1, 6);
    }
  }

  /** At least one row of `o`'s table passes `o`'s fetch conditions. */
  predicate Present(db: Db, o: SqlObject, nullSafe: bool) {
    Conditions(o).Success? && Matching(Rows(db, o.table), Conditions(o).value, nullSafe) != []
  }

  /** Growth never loses a row, so what is present stays present. */
  lemma {:induction false} PresentKept(a: Db, c: Db, lo: int, hi: int, o: SqlObject, nullSafe: bool)
    requires Grows(a, c, lo, hi) && Present(a, o, nullSafe)
    ensures Present(c, o, nullSafe)
  {
    var rows := Rows(a, o.table);
    assert Rows(c, o.table) == rows + Rows(c, o.table)[|rows|..];
    MatchingConcat(rows, Rows(c, o.table)[|rows|..], Conditions(o).value, nullSafe);
  }

  /** After the flags are saved, every non-empty flag of the file has a row. */
  lemma {:induction false} FlagsStored(db: Db, flags: seq<string>, nullSafe: bool)
    requires SaveFlags(db, flags, nullSafe).Success?
    ensures forall k :: 0 <= k < |flags| && flags[k] != "" ==>
              Present(SaveFlags(db, flags, nullSafe).value, FlagOf(flags[k]), nullSafe)
    decreases |flags|
  {
    if flags != [] {
      var rest := flags[1..];
      var next := if flags[0] == "" then db else FetchOrSaveWith(db, FlagOf(flags[0]), nullSafe).value.0;
      var last := SaveFlags(next, rest, nullSafe);
      assert SaveFlags(db, flags, nullSafe) == last;
      if flags[0] != "" {
        FlagHeadStored(db, flags[0], rest, nullSafe);
      }
      FlagsStored(next, rest, nullSafe);
      forall k | 0 <= k < |flags| && flags[k] != ""
        ensures Present(SaveFlags(db, flags, nullSafe).value, FlagOf(flags[k]), nullSafe)
      {
        if k > 0 {
          assert flags[k] == rest[k - 1];
        }
      }
    }
  }

  /** The flag saved first is still present once the flags after it are saved. */
  lemma FlagHeadStored(db: Db, f: string, rest: seq<string>, nullSafe: bool)
    requires FetchOrSaveWith(db, FlagOf(f), nullSafe).Success?
    requires SaveFlags(FetchOrSaveWith(db, FlagOf(f), nullSafe).value.0, rest, nullSafe).Success?
    ensures Present(SaveFlags(FetchOrSaveWith(db, FlagOf(f), nullSafe).value.0, rest, nullSafe).value,
                    FlagOf(f), nullSafe)
  {
    var o := FlagOf(f);
    var next := FetchOrSaveWith(db, o, nullSafe).value.0;
    FetchOrSaveKeyed(db, o, nullSafe);
    assert Present(next, o, nullSafe);
    FlagsGrow(next, rest, nullSafe);
    PresentKept(next, SaveFlags(next, rest, nullSafe).value, 6, 6, o, nullSafe);
  }

  // ---------------------------------------------------------------------------
  // The run and its sub-run
  // ---------------------------------------------------------------------------

  /** `save_run`'s `Run(...)`: `os.getlogin()` names the creator and raises `OSError` when
      the process has no controlling terminal, and a file without a tag row leaves the
      reader without a `tag` attribute. */
  function RunObject(env: Env, rd: PmtmReader.Reader, dims: Dimensions): (r: Result<SqlObject>)
    ensures r.Success? <==> env.login.Some? && rd.tag.Some?
    ensures r.Success? ==>
              && r.value.table == Tables.Run && r.value.id.None? && r.value.runId == rd.runId
              && r.value.key == RunKey
              && r.value.values == RunValues(env.login.value, dims, env.now, env.timestamp(rd.datetime), rd.runId,
                                             rd.tag.value, env.storeFile)
  {
    if env.login.None? then Failure("OSError: getlogin failed")
    else if rd.tag.None? then Failure("AttributeError: 'Reader' object has no attribute 'tag'")
    else Success(RunOf(env.login.value, dims, env.now, env.timestamp(rd.datetime), rd.runId, rd.tag.value,
                       env.storeFile))
  }

  /** `save_run`: a run the database already holds (by its `RunID`, or by its business key
      when it has none) is refused; otherwise it is inserted and its `ID` read back. */
  function SaveRun(db: Db, run: SqlObject, nullSafe: bool): (r: Result<(Db, int)>)
    requires run.id.None?
    ensures r.Success? ==> FetchWith(db, run, nullSafe).Success? && FetchWith(db, run, nullSafe).value.id.None?
    ensures r.Success? ==> Appends(db, r.value.0, run.table, 1) && KeyedBy(r.value.0, run, r.value.1, nullSafe)
  {
    var f :- FetchWith(db, run, nullSafe);
    if f.id.Some? then Failure("Run already in database")
    else
      var s :- SaveWith(db, run, true, nullSafe);
      SaveKeyed(db, run, nullSafe);
      Success((s.0, s.1.id.value))
  }

  /** A run that is already present is never saved again. */
  lemma {:induction false} RunAlreadyThere(db: Db, run: SqlObject, nullSafe: bool)
    requires run.id.None? && Present(db, run, nullSafe)
    ensures SaveRun(db, run, nullSafe).Failure?
  {
    if Conditions(run).value != [] {
      FetchOutcomes(db, run, nullSafe);
    }
  }

  /** `save_sub_runs`' sub-run: sequence 0 of the run, upserted. */
  function SaveSubRun(db: Db, run: int, nullSafe: bool): (r: Result<(Db, int)>)
    ensures r.Success? ==>
              && KeyedBy(r.value.0, SubRunOf(Some(run), 0), r.value.1, nullSafe)
              && (Appends(db, r.value.0, Tables.SubRun, 0) || Appends(db, r.value.0, Tables.SubRun, 1))
  {
    var o := SubRunOf(Some(run), 0);
    var s :- FetchOrSaveWith(db, o, nullSafe);
    FetchOrSaveKeyed(db, o, nullSafe);
    Success((s.0, s.1.id.value))
  }

  // ---------------------------------------------------------------------------
  // The measurements
  // ---------------------------------------------------------------------------

  /** Each record inserted in turn with `save(update_id=False)`; a record whose construction
      raised stops the loop at its turn. */
  function SaveEach(db: Db, items: seq<Result<SqlObject>>, nullSafe: bool): Result<Db>
    decreases |items|
  {
    if items == [] then Success(db)
    else
      var o :- items[0];
      var s :- SaveWith(db, o, false, nullSafe);
      SaveEach(s.0, items[1..], nullSafe)
  }

  /** Inserting records of one table appends exactly one row per record; it succeeds only
      when every record was built. */
  lemma {:induction false} EachAppends(db: Db, items: seq<Result<SqlObject>>, t: Tables.Table, nullSafe: bool)
    requires forall i :: 0 <= i < |items| && items[i].Success? ==> items[i].value.table == t
    requires SaveEach(db, items, nullSafe).Success?
    ensures forall i :: 0 <= i < |items| ==> items[i].Success?
    ensures Appends(db, SaveEach(db, items, nullSafe).value, t, |items|)
    decreases |items|
  {
    if items != [] {
      var o := items[0].value;
      var s := SaveWith(db, o, false, nullSafe).value;
      var rest := items[1..];
      EachAppends(s.0, rest, t, nullSafe);
      assert forall i :: 1 <= i < |items| ==> items[i] == rest[i - 1];
      AppendsTrans(db, s.0, SaveEach(db, items, nullSafe).value, t, 1, |rest|);
    }
  }

  /** The rows inserted for records of one table hold those records' values, in order. */
  lemma {:induction false} EachStored(db: Db, items: seq<Result<SqlObject>>, t: Tables.Table, nullSafe: bool)
    requires forall i :: 0 <= i < |items| && items[i].Success? ==> items[i].value.table == t
    requires SaveEach(db, items, nullSafe).Success?
    ensures forall i :: 0 <= i < |items| ==> items[i].Success?
    ensures var db2 := SaveEach(db, items, nullSafe).value;
            && |Rows(db2, t)| == |Rows(db, t)| + |items|
            && forall i :: 0 <= i < |items| ==>
                 Rows(db2, t)[|Rows(db, t)| + i].cells == StoredCells(items[i].value.values)
    decreases |items|
  {
    EachAppends(db, items, t, nullSafe);
    if items != [] {
      var db2 := SaveEach(db, items, nullSafe).value;
      var o := items[0].value;
      var s := SaveWith(db, o, false, nullSafe).value;
      var rest := items[1..];
      assert Rows(s.0, t) == Rows(db, t) + [Row(db.nextId, StoredCells(o.values))];
      EachStored(s.0, rest, t, nullSafe);
      EachAppends(s.0, rest, t, nullSafe);
      assert db2 == SaveEach(s.0, rest, nullSafe).value;
      forall i | 0 <= i < |items|
        ensures Rows(db2, t)[|Rows(db, t)| + i].cells == StoredCells(items[i].value.values)
      {
        if i == 0 {
          assert Rows(db2, t)[|Rows(db, t)|] == Rows(s.0, t)[|Rows(db, t)|];
        } else {
          assert items[i] == rest[i - 1];
          assert |Rows(db, t)| + i == |Rows(s.0, t)| + (i - 1);
        }
      }
    }
  }

  /** `save_parameters`' records: one per parameter row, then the `PE Count` when the
      file's process count is not empty (rank `Unknown`). */
  function ParameterItems(subRun: int, ps: seq<PmtmReader.Parameter>, nprocs: Option<string>): (items: seq<Result<SqlObject>>)
    ensures |items| == |ps| + (if nprocs.Some? && nprocs.value != "" then 1 else 0)
    ensures forall i :: 0 <= i < |items| && items[i].Success? ==> items[i].value.table == Tables.Parameter
    ensures forall i :: 0 <= i < |ps| ==> items[i] == ParameterOf(Some(subRun), ps[i].name, ps[i].value, ps[i].rank)
    ensures nprocs.Some? && nprocs.value != "" ==>
              items[|ps|] == ParameterOf(Some(subRun), "PE Count", nprocs.value, "Unknown")
  {
    var own := seq(|ps|, i requires 0 <= i < |ps| => ParameterOf(Some(subRun), ps[i].name, ps[i].value, ps[i].rank));
    if nprocs.Some? && nprocs.value != "" then own + [ParameterOf(Some(subRun), "PE Count", nprocs.value, "Unknown")]
    else own
  }

  /** `save_overheads`' records. */
  function OverheadItems(subRun: int, os: seq<PmtmReader.Overhead>, float: string -> Option<real>): (items: seq<Result<SqlObject>>)
    ensures |items| == |os|
    ensures forall i :: 0 <= i < |items| && items[i].Success? ==> items[i].value.table == Tables.Result
    ensures forall i :: 0 <= i < |os| ==>
              items[i] == OverheadOf(Some(subRun), os[i].name, os[i].value, os[i].rank, os[i].error, float)
  {
    seq(|os|, i requires 0 <= i < |os| => OverheadOf(Some(subRun), os[i].name, os[i].value, os[i].rank, os[i].error, float))
  }

  /** `save_timers`' records. */
  function TimerItems(subRun: int, ts: seq<PmtmReader.Timer>, float: string -> Option<real>): (items: seq<Result<SqlObject>>)
    ensures |items| == |ts|
    ensures forall i :: 0 <= i < |items| && items[i].Success? ==> items[i].value.table == Tables.Result
    ensures forall i :: 0 <= i < |ts| ==>
              items[i] == TimerOf(Some(subRun), ts[i].name, ts[i].value, ts[i].rank, ts[i].error, ts[i].count,
                                  ts[i].pause, float)
  {
    seq(|ts|, i requires 0 <= i < |ts| =>
      TimerOf(Some(subRun), ts[i].name, ts[i].value, ts[i].rank, ts[i].error, ts[i].count, ts[i].pause, float))
  }

  /** `save_parameters`, `save_overheads` and `save_timers` for one sub-run. */
  function SaveRows(db: Db, subRun: int, rd: PmtmReader.Reader, float: string -> Option<real>, nullSafe: bool): Result<Db> {
    var p :- SaveEach(db, ParameterItems(subRun, rd.parameters, rd.nprocs), nullSafe);
    var o :- SaveEach(p, OverheadItems(subRun, rd.overheads, float), nullSafe);
    SaveEach(o, TimerItems(subRun, rd.timers, float), nullSafe)
  }

  /** The measurement steps add one parameter row per parameter (and the process count) and
      one result row per overhead and per timer, and write nothing else. */
  lemma {:induction false} RowsCounted(db: Db, subRun: int, rd: PmtmReader.Reader, float: string -> Option<real>, nullSafe: bool)
    requires SaveRows(db, subRun, rd, float, nullSafe).Success?
    ensures var db2 := SaveRows(db, subRun, rd, float, nullSafe).value;
            && Grows(db, db2, 9, 10)
            && |Rows(db2, Tables.Parameter)| == |Rows(db, Tables.Parameter)| + |rd.parameters|
                 + (if rd.nprocs.Some? && rd.nprocs.value != "" then 1 else 0)
            && |Rows(db2, Tables.Result)| == |Rows(db, Tables.Result)| + |rd.overheads| + |rd.timers|
  {
    var ps := ParameterItems(subRun, rd.parameters, rd.nprocs);
    var os := OverheadItems(subRun, rd.overheads, float);
    var ts := TimerItems(subRun, rd.timers, float);
    var p := SaveEach(db, ps, nullSafe).value;
    var o := SaveEach(p, os, nullSafe).value;
    assert SaveRows(db, subRun, rd, float, nullSafe) == SaveEach(o, ts, nullSafe);
    ThreeSavesCounted(db, ps, os, ts, nullSafe);
  }

  /** Saving parameter records and then two lists of result records grows the tables of
      steps 9 and 10 by one row per record. */
  lemma ThreeSavesCounted(db: Db, ps: seq<Result<SqlObject>>, os: seq<Result<SqlObject>>, ts: seq<Result<SqlObject>>,
                          nullSafe: bool)
    requires forall i :: 0 <= i < |ps| && ps[i].Success? ==> ps[i].value.table == Tables.Parameter
    requires forall i :: 0 <= i < |os| && os[i].Success? ==> os[i].value.table == Tables.Result
    requires forall i :: 0 <= i < |ts| && ts[i].Success? ==> ts[i].value.table == Tables.Result
    requires SaveEach(db, ps, nullSafe).Success?
    requires SaveEach(SaveEach(db, ps, nullSafe).value, os, nullSafe).Success?
    requires SaveEach(SaveEach(SaveEach(db, ps, nullSafe).value, os, nullSafe).value, ts, nullSafe).Success?
    ensures var d := SaveEach(SaveEach(SaveEach(db, ps, nullSafe).value, os, nullSafe).value, ts, nullSafe).value;
            && Grows(db, d, 9, 10)
            && |Rows(d, Tables.Parameter)| == |Rows(db, Tables.Parameter)| + |ps|
            && |Rows(d, Tables.Result)| == |Rows(db, Tables.Result)| + |os| + |ts|
  {
    var p := SaveEach(db, ps, nullSafe).value;
    EachGrows(db, ps, Tables.Parameter, 9, nullSafe);
    ResultsGrow(p, os, ts, nullSafe);
    RowsChain(db, p, SaveEach(SaveEach(p, os, nullSafe).value, ts, nullSafe).value);
  }

  /** The parameter step and then the result step grow the tables of steps 9 and 10, each
      leaving the other's table alone. */
  lemma RowsChain(a: Db, b: Db, c: Db)
    requires Grows(a, b, 9, 9) && Grows(b, c, 10, 10)
    ensures Grows(a, c, 9, 10)
    ensures Rows(c, Tables.Parameter) == Rows(b, Tables.Parameter) && Rows(b, Tables.Result) == Rows(a, Tables.Result)
  {
    GrowsTrans(a, b, c, 9, 9, 10, 10);
  }

  /** Saving records of one table is growth within that table's step, by one row per
      record. */
  lemma EachGrows(db: Db, items: seq<Result<SqlObject>>, t: Tables.Table, k: int, nullSafe: bool)
    requires forall i :: 0 <= i < |items| && items[i].Success? ==> items[i].value.table == t
    requires SaveEach(db, items, nullSafe).Success?
    requires StepIndex(t) == k
    ensures var db2 := SaveEach(db, items, nullSafe).value;
            Grows(db, db2, k, k) && |Rows(db2, t)| == |Rows(db, t)| + |items|
  {
    EachAppends(db, items, t, nullSafe);
    AppendsGrows(db, SaveEach(db, items, nullSafe).value, t, |items|, k);
  }

  /** Saving two lists of result records is growth within the result step, by one row per
      record. */
  lemma ResultsGrow(db: Db, os: seq<Result<SqlObject>>, ts: seq<Result<SqlObject>>, nullSafe: bool)
    requires forall i :: 0 <= i < |os| && os[i].Success? ==> os[i].value.table == Tables.Result
    requires forall i :: 0 <= i < |ts| && ts[i].Success? ==> ts[i].value.table == Tables.Result
    requires SaveEach(db, os, nullSafe).Success?
    requires SaveEach(SaveEach(db, os, nullSafe).value, ts, nullSafe).Success?
    ensures var d := SaveEach(SaveEach(db, os, nullSafe).value, ts, nullSafe).value;
            Grows(db, d, 10, 10) && |Rows(d, Tables.Result)| == |Rows(db, Tables.Result)| + |os| + |ts|
  {
    var o := SaveEach(db, os, nullSafe).value;
    var d := SaveEach(o, ts, nullSafe).value;
    EachAppends(db, os, Tables.Result, nullSafe);
    EachAppends(o, ts, Tables.Result, nullSafe);
    AppendsTrans(db, o, d, Tables.Result, |os|, |ts|);
    AppendsGrows(db, d, Tables.Result, |os| + |ts|, 10);
  }

  /** Inserting built records of one table fails only for a record whose construction
      raised or for a table that takes no rows: a record without a business key and with a
      literal for every column always goes in. */
  lemma {:induction false} EachSucceeds(db: Db, items: seq<Result<SqlObject>>, t: Tables.Table, nullSafe: bool)
    requires forall i :: 0 <= i < |items| && items[i].Success? ==> items[i].value.table == t && Plain(items[i].value.values)
    ensures SaveEach(db, items, nullSafe).Success? <==>
              (forall i :: 0 <= i < |items| ==> items[i].Success?) && (items == [] || t !in db.refusing)
    decreases |items|
  {
    if items != [] && items[0].Success? && t !in db.refusing {
      var o := items[0].value;
      var s := SaveWith(db, o, false, nullSafe).value;
      assert s.0.refusing == db.refusing;
      var rest := items[1..];
      assert forall i :: 1 <= i < |items| ==> items[i] == rest[i - 1];
      EachSucceeds(s.0, rest, t, nullSafe);
    }
  }

  /** Every parameter record that could be built has a literal for every column. */
  lemma ParameterItemsPlain(subRun: int, ps: seq<PmtmReader.Parameter>, nprocs: Option<string>)
    ensures var items := ParameterItems(subRun, ps, nprocs);
            forall i :: 0 <= i < |items| && items[i].Success? ==> Plain(items[i].value.values)
  {
    var items := ParameterItems(subRun, ps, nprocs);
    forall i | 0 <= i < |items| && items[i].Success? ensures Plain(items[i].value.values) {
      if i < |ps| {
        ParameterPlain(Some(subRun), ps[i].name, ps[i].value, ps[i].rank);
      } else {
        ParameterPlain(Some(subRun), "PE Count", nprocs.value, "Unknown");
      }
    }
  }

  /** Every overhead and timer record that could be built has a literal for every column. */
  lemma ResultItemsPlain(subRun: int, os: seq<PmtmReader.Overhead>, ts: seq<PmtmReader.Timer>, float: string -> Option<real>)
    ensures var items := OverheadItems(subRun, os, float);
            forall i :: 0 <= i < |items| && items[i].Success? ==> Plain(items[i].value.values)
    ensures var items := TimerItems(subRun, ts, float);
            forall i :: 0 <= i < |items| && items[i].Success? ==> Plain(items[i].value.values)
  {
    forall i | 0 <= i < |os|
      ensures var r := OverheadOf(Some(subRun), os[i].name, os[i].value, os[i].rank, os[i].error, float);
              r.Success? ==> Plain(r.value.values)
    {
      TimerPlain(Some(subRun), "Timer overhead for " + os[i].name, os[i].value, "All Ranks", os[i].error, "10000", "0", float);
    }
    forall i | 0 <= i < |ts|
      ensures var r := TimerOf(Some(subRun), ts[i].name, ts[i].value, ts[i].rank, ts[i].error, ts[i].count, ts[i].pause, float);
              r.Success? ==> Plain(r.value.values)
    {
      TimerPlain(Some(subRun), ts[i].name, ts[i].value, ts[i].rank, ts[i].error, ts[i].count, ts[i].pause, float);
    }
  }

  /** The rows `save_parameters` appends, with the cells `EachStored` gives them, are
      the file's parameters in order, each under its own name, then the process count under
      `PE Count`. */
  lemma ParameterRowsNamed(added: seq<Row>, subRun: int, ps: seq<PmtmReader.Parameter>, nprocs: Option<string>)
    requires var items := ParameterItems(subRun, ps, nprocs);
             && |added| == |items|
             && forall i :: 0 <= i < |items| ==> items[i].Success? && added[i].cells == StoredCells(items[i].value.values)
    ensures forall i :: 0 <= i < |ps| ==> Name in added[i].cells && added[i].cells[Name] == SStr(ps[i].name)
    ensures nprocs.Some? && nprocs.value != "" ==>
              Name in added[|ps|].cells && added[|ps|].cells[Name] == SStr("PE Count")
  {
    var items := ParameterItems(subRun, ps, nprocs);
    forall i | 0 <= i < |ps|
      ensures Name in added[i].cells && added[i].cells[Name] == SStr(ps[i].name)
    {
      assert items[i] == ParameterOf(Some(subRun), ps[i].name, ps[i].value, ps[i].rank);
      ParameterCells(added[i].cells, subRun, ps[i].name, ps[i].value, ps[i].rank);
    }
    if nprocs.Some? && nprocs.value != "" {
      ParameterCells(added[|ps|].cells, subRun, "PE Count", nprocs.value, "Unknown");
    }
  }

  /** The cells stored for one parameter. */
  lemma ParameterCells(cells: map<Col, SqlValue>, subRun: int, name: string, value: string, rank: string)
    requires ParameterOf(Some(subRun), name, value, rank).Success?
    requires cells == StoredCells(ParameterOf(Some(subRun), name, value, rank).value.values)
    ensures Name in cells && cells[Name] == SStr(name)
  {
  }

  /** The result rows `save_overheads` appends, with the cells `EachStored` gives them,
      are the file's overheads in order, each under its prefixed name with count 10000. */
  lemma OverheadRowsNamed(added: seq<Row>, subRun: int, os: seq<PmtmReader.Overhead>, float: string -> Option<real>)
    requires var items := OverheadItems(subRun, os, float);
             && |added| == |items|
             && forall i :: 0 <= i < |items| ==> items[i].Success? && added[i].cells == StoredCells(items[i].value.values)
    ensures forall i :: 0 <= i < |os| ==>
              && Name in added[i].cells && Count in added[i].cells
              && added[i].cells[Name] == SStr("Timer overhead for " + os[i].name)
              && added[i].cells[Count] == SInt(10000)
  {
    forall i | 0 <= i < |os|
      ensures && Name in added[i].cells && Count in added[i].cells
              && added[i].cells[Name] == SStr("Timer overhead for " + os[i].name)
              && added[i].cells[Count] == SInt(10000)
    {
      assert OverheadItems(subRun, os, float)[i] == OverheadOf(Some(subRun), os[i].name, os[i].value, os[i].rank, os[i].error, float);
      OverheadCells(added[i].cells, subRun, os[i], float);
    }
  }

  /** The cells stored for one overhead. */
  lemma OverheadCells(cells: map<Col, SqlValue>, subRun: int, o: PmtmReader.Overhead, float: string -> Option<real>)
    requires OverheadOf(Some(subRun), o.name, o.value, o.rank, o.error, float).Success?
    requires cells == StoredCells(OverheadOf(Some(subRun), o.name, o.value, o.rank, o.error, float).value.values)
    ensures Name in cells && Count in cells
    ensures cells[Name] == SStr("Timer overhead for " + o.name) && cells[Count] == SInt(10000)
  {
    OverheadIsTimer(Some(subRun), o.name, o.value, o.rank, o.error, float);
  }

  /** The result rows `save_timers` appends, with the cells `EachStored` gives them,
      are the file's timers in order, each under its own name with the value `float()` read. */
  lemma TimerRowsNamed(added: seq<Row>, subRun: int, ts: seq<PmtmReader.Timer>, float: string -> Option<real>)
    requires var items := TimerItems(subRun, ts, float);
             && |added| == |items|
             && forall i :: 0 <= i < |items| ==> items[i].Success? && added[i].cells == StoredCells(items[i].value.values)
    ensures forall i :: 0 <= i < |ts| ==>
              && float(ts[i].value).Some?
              && Name in added[i].cells && Value in added[i].cells
              && added[i].cells[Name] == SStr(ts[i].name)
              && added[i].cells[Value] == SFloat(float(ts[i].value).value)
  {
    forall i | 0 <= i < |ts|
      ensures && float(ts[i].value).Some?
              && Name in added[i].cells && Value in added[i].cells
              && added[i].cells[Name] == SStr(ts[i].name)
              && added[i].cells[Value] == SFloat(float(ts[i].value).value)
    {
      TimerCells(added[i].cells, subRun, ts[i], float);
    }
  }

  /** The cells stored for one timer. */
  lemma TimerCells(cells: map<Col, SqlValue>, subRun: int, t: PmtmReader.Timer, float: string -> Option<real>)
    requires TimerOf(Some(subRun), t.name, t.value, t.rank, t.error, t.count, t.pause, float).Success?
    requires cells == StoredCells(TimerOf(Some(subRun), t.name, t.value, t.rank, t.error, t.count, t.pause, float).value.values)
    ensures float(t.value).Some? && Name in cells && Value in cells
    ensures cells[Name] == SStr(t.name) && cells[Value] == SFloat(float(t.value).value)
  {
  }

  /** Every dimension object of a read file passes its own clause once stored, so the
      corrected upsert finds it again. */
  lemma {:induction false} DimensionObjectsKeyable(rd: PmtmReader.Reader)
    ensures forall i :: 0 <= i < 5 && FirstFive(rd)[i].Some? ==> Keyable(FirstFive(rd)[i].value)
    ensures ProcessorObject(rd.processor).Success? && ProcessorObject(rd.processor).value.Some? ==>
              Keyable(ProcessorObject(rd.processor).value.value)
  {
    var objs := FirstFive(rd);
    if rd.application.Some? { ApplicationKeyable(rd.application.value.name, rd.application.value.version); }
    if rd.compiler.Some? { VendorVersionKeyable(rd.compiler.value.name, rd.compiler.value.vendor, rd.compiler.value.version); }
    if rd.machine.Some? { MachineKeyable(rd.machine.value.name, rd.machine.value.vendor); }
    if rd.mpi.Some? { VendorVersionKeyable(rd.mpi.value.name, rd.mpi.value.vendor, rd.mpi.value.version); }
    if rd.os.Some? { OsKeyable(rd.os.value.name, rd.os.value.vendor, rd.os.value.version, rd.os.value.kernel); }
    match rd.processor
    case Some(x) =>
      if ProcessorOf(x.name, x.vendor, x.arch, x.clock, x.nprocs, x.nthreads).Success? {
        ProcessorKeyable(x.name, x.vendor, x.arch, x.clock, x.nprocs, x.nthreads);
      }
    case None =>
  }

  // ---------------------------------------------------------------------------
  // save and main
  // ---------------------------------------------------------------------------

  /** What a successful `save` leaves: the database and the ids it gave the dimensions, the
      run and the sub-run. */
  datatype Saved = Saved(db: Db, dims: Dimensions, run: int, subRun: int)

  /** `save` from the run on: the run, its sub-run and the measurements, then the copy of
      the file into the store, which raises `IOError` when it fails. */
  function SaveRunOn(db: Db, run: SqlObject, rd: PmtmReader.Reader, env: Env, dims: Dimensions, nullSafe: bool): Result<Saved>
    requires run.id.None?
  {
    var r :- SaveRun(db, run, nullSafe);
    var s :- SaveSubRun(r.0, r.1, nullSafe);
    var t :- SaveRows(s.0, s.1, rd, env.float, nullSafe);
    if !env.copied then Failure("IOError: the file could not be copied to the store")
    else Success(Saved(t, dims, r.1, s.1))
  }

  /** `PmtmSqlStore.save`: the dimensions, the flags, the run with its sub-run and
      measurements, and the copy of the file, stopping at the first step that raises. */
  function SaveAll(db: Db, env: Env, rd: PmtmReader.Reader, nullSafe: bool): Result<Saved> {
    var a :- SaveDimensions(db, rd, nullSafe);
    var b :- SaveFlags(a.0, rd.flags, nullSafe);
    var run :- RunObject(env, rd, a.1);
    SaveRunOn(b, run, rd, env, a.1, nullSafe)
  }

  /** A successful run-on is its steps, each successful. */
  lemma {:induction false} RunOnParts(db: Db, run: SqlObject, rd: PmtmReader.Reader, env: Env, dims: Dimensions, nullSafe: bool)
    requires run.id.None? && SaveRunOn(db, run, rd, env, dims, nullSafe).Success?
    ensures SaveRun(db, run, nullSafe).Success?
    ensures var r := SaveRun(db, run, nullSafe).value;
            && SaveSubRun(r.0, r.1, nullSafe).Success?
            && var s := SaveSubRun(r.0, r.1, nullSafe).value;
               && SaveRows(s.0, s.1, rd, env.float, nullSafe).Success? && env.copied
               && SaveRunOn(db, run, rd, env, dims, nullSafe).value
                  == Saved(SaveRows(s.0, s.1, rd, env.float, nullSafe).value, dims, r.1, s.1)
  {
  }

  /** From the run on, `save` writes the run, sub-run, parameter and result tables in that
      order, adding exactly one run; afterwards the run and its sub-run are each found by
      exactly one row. */
  lemma {:induction false} RunOnGrows(db: Db, run: SqlObject, rd: PmtmReader.Reader, env: Env, dims: Dimensions, nullSafe: bool)
    requires run.id.None? && run.table == Tables.Run && SaveRunOn(db, run, rd, env, dims, nullSafe).Success?
    ensures var sv := SaveRunOn(db, run, rd, env, dims, nullSafe).value;
            && Grows(db, sv.db, 7, 10)
            && |Rows(sv.db, Tables.Run)| == |Rows(db, Tables.Run)| + 1
            && KeyedBy(sv.db, run, sv.run, nullSafe)
            && KeyedBy(sv.db, SubRunOf(Some(sv.run), 0), sv.subRun, nullSafe)
  {
    RunOnParts(db, run, rd, env, dims, nullSafe);
    var r := SaveRun(db, run, nullSafe).value;
    var s := SaveSubRun(r.0, r.1, nullSafe).value;
    var t := SaveRows(s.0, s.1, rd, env.float, nullSafe).value;
    AppendsGrows(db, r.0, Tables.Run, 1, 7);
    SubRunStepGrows(r.0, r.1, nullSafe);
    RowsCounted(s.0, s.1, rd, env.float, nullSafe);
    RunOnChain(db, r.0, s.0, t);
    KeyedKept(r.0, t, run, r.1, nullSafe);
    KeyedKept(s.0, t, SubRunOf(Some(r.1), 0), s.1, nullSafe);
  }

  /** Upserting the sub-run is growth within the sub-run step. */
  lemma SubRunStepGrows(db: Db, run: int, nullSafe: bool)
    requires SaveSubRun(db, run, nullSafe).Success?
    ensures Grows(db, SaveSubRun(db, run, nullSafe).value.0, 8, 8)
  {
    var s := SaveSubRun(db, run, nullSafe).value;
    UpsertGrows(db, s.0, Tables.SubRun, 8);
  }

  /** The run, sub-run and measurement steps in turn grow the tables of steps 7 to 10, and
      the last two leave the run table alone. */
  lemma RunOnChain(a: Db, b: Db, c: Db, d: Db)
    requires Grows(a, b, 7, 7) && Grows(b, c, 8, 8) && Grows(c, d, 9, 10)
    ensures Grows(a, d, 7, 10)
    ensures Rows(d, Tables.Run) == Rows(b, Tables.Run) && Rows(d, Tables.SubRun) == Rows(c, Tables.SubRun)
  {
    GrowsTrans(b, c, d, 8, 8, 9, 10);
    GrowsTrans(a, b, d, 7, 7, 8, 10);
  }

  /** A key that picks out one row still does when its table is unchanged. */
  lemma KeyedKept(a: Db, c: Db, o: SqlObject, id: int, nullSafe: bool)
    requires KeyedBy(a, o, id, nullSafe) && Rows(c, o.table) == Rows(a, o.table)
    ensures KeyedBy(c, o, id, nullSafe)
  {
  }

  /** A successful `save` is its steps, each successful. */
  lemma {:induction false} SaveAllParts(db: Db, env: Env, rd: PmtmReader.Reader, nullSafe: bool)
    requires SaveAll(db, env, rd, nullSafe).Success?
    ensures SaveDimensions(db, rd, nullSafe).Success?
    ensures var a := SaveDimensions(db, rd, nullSafe).value;
            && SaveFlags(a.0, rd.flags, nullSafe).Success? && RunObject(env, rd, a.1).Success?
            && SaveAll(db, env, rd, nullSafe)
               == SaveRunOn(SaveFlags(a.0, rd.flags, nullSafe).value, RunObject(env, rd, a.1).value, rd, env, a.1, nullSafe)
  {
  }

  /** `save` only appends rows, table after table in the order of its steps, and adds
      exactly one run; afterwards the run is found by exactly one row and so is its
      sub-run. */
  lemma {:induction false} SaveAllGrows(db: Db, env: Env, rd: PmtmReader.Reader, nullSafe: bool)
    requires SaveAll(db, env, rd, nullSafe).Success?
    ensures var sv := SaveAll(db, env, rd, nullSafe).value;
            && Grows(db, sv.db, 0, 10)
            && |Rows(sv.db, Tables.Run)| == |Rows(db, Tables.Run)| + 1
            && RunObject(env, rd, sv.dims).Success?
            && KeyedBy(sv.db, RunObject(env, rd, sv.dims).value, sv.run, nullSafe)
            && KeyedBy(sv.db, SubRunOf(Some(sv.run), 0), sv.subRun, nullSafe)
  {
    SaveAllParts(db, env, rd, nullSafe);
    var a := SaveDimensions(db, rd, nullSafe).value;
    var b := SaveFlags(a.0, rd.flags, nullSafe).value;
    var run := RunObject(env, rd, a.1).value;
    FrontGrows(db, rd, nullSafe);
    RunOnAfterFront(db, b, run, rd, env, a.1, nullSafe);
  }

  /** The dimension and flag steps grow the first seven tables. */
  lemma FrontGrows(db: Db, rd: PmtmReader.Reader, nullSafe: bool)
    requires SaveDimensions(db, rd, nullSafe).Success?
    requires SaveFlags(SaveDimensions(db, rd, nullSafe).value.0, rd.flags, nullSafe).Success?
    ensures Grows(db, SaveFlags(SaveDimensions(db, rd, nullSafe).value.0, rd.flags, nullSafe).value, 0, 6)
  {
    var a := SaveDimensions(db, rd, nullSafe).value;
    DimensionsInOrder(db, rd, nullSafe);
    FlagsGrow(a.0, rd.flags, nullSafe);
    GrowsTrans(db, a.0, SaveFlags(a.0, rd.flags, nullSafe).value, 0, 5, 6, 6);
  }

  /** The run steps after growth of the first seven tables: together they grow all the
      tables, adding one run that is found by one row, as is its sub-run. */
  lemma RunOnAfterFront(db: Db, b: Db, run: SqlObject, rd: PmtmReader.Reader, env: Env, dims: Dimensions, nullSafe: bool)
    requires Grows(db, b, 0, 6)
    requires run.id.None? && run.table == Tables.Run && SaveRunOn(b, run, rd, env, dims, nullSafe).Success?
    ensures var sv := SaveRunOn(b, run, rd, env, dims, nullSafe).value;
            && Grows(db, sv.db, 0, 10)
            && |Rows(sv.db, Tables.Run)| == |Rows(db, Tables.Run)| + 1
            && sv.dims == dims
            && KeyedBy(sv.db, run, sv.run, nullSafe)
            && KeyedBy(sv.db, SubRunOf(Some(sv.run), 0), sv.subRun, nullSafe)
  {
    RunOnGrows(b, run, rd, env, dims, nullSafe);
    RunOnParts(b, run, rd, env, dims, nullSafe);
    var sv := SaveRunOn(b, run, rd, env, dims, nullSafe).value;
    GrowsTrans(db, b, sv.db, 0, 6, 7, 10);
    assert Rows(b, Tables.Run) == Rows(db, Tables.Run);
  }

  /** From the run on, `save` adds one parameter row per parameter, and one more for a
      non-empty process count, and one result row per overhead and per timer. */
  lemma {:induction false} RunOnCounts(db: Db, run: SqlObject, rd: PmtmReader.Reader, env: Env, dims: Dimensions, nullSafe: bool)
    requires run.id.None? && run.table == Tables.Run && SaveRunOn(db, run, rd, env, dims, nullSafe).Success?
    ensures var sv := SaveRunOn(db, run, rd, env, dims, nullSafe).value;
            && |Rows(sv.db, Tables.Parameter)| == |Rows(db, Tables.Parameter)| + |rd.parameters|
                 + (if rd.nprocs.Some? && rd.nprocs.value != "" then 1 else 0)
            && |Rows(sv.db, Tables.Result)| == |Rows(db, Tables.Result)| + |rd.overheads| + |rd.timers|
  {
    RunOnParts(db, run, rd, env, dims, nullSafe);
    var r := SaveRun(db, run, nullSafe).value;
    var s := SaveSubRun(r.0, r.1, nullSafe).value;
    RowsCounted(s.0, s.1, rd, env.float, nullSafe);
    assert Rows(s.0, Tables.Parameter) == Rows(db, Tables.Parameter);
    assert Rows(s.0, Tables.Result) == Rows(db, Tables.Result);
  }

  /** The dimension and flag steps leave the parameter and result tables alone. */
  lemma {:induction false} FrontKept(db: Db, rd: PmtmReader.Reader, nullSafe: bool)
    requires SaveDimensions(db, rd, nullSafe).Success?
    requires SaveFlags(SaveDimensions(db, rd, nullSafe).value.0, rd.flags, nullSafe).Success?
    ensures var b := SaveFlags(SaveDimensions(db, rd, nullSafe).value.0, rd.flags, nullSafe).value;
            Rows(b, Tables.Parameter) == Rows(db, Tables.Parameter) && Rows(b, Tables.Result) == Rows(db, Tables.Result)
  {
    var a := SaveDimensions(db, rd, nullSafe).value;
    var b := SaveFlags(a.0, rd.flags, nullSafe).value;
    assert Grows(db, a.0, 0, 5) by {
      DimensionsInOrder(db, rd, nullSafe);
    }
    assert Grows(a.0, b, 6, 6) by {
      FlagsGrow(a.0, rd.flags, nullSafe);
    }
    FrontTablesKept(db, a.0, b);
  }

  /** Growth over the first seven steps leaves the parameter and result tables alone. */
  lemma FrontTablesKept(db: Db, a: Db, b: Db)
    requires Grows(db, a, 0, 5) && Grows(a, b, 6, 6)
    ensures Rows(b, Tables.Parameter) == Rows(db, Tables.Parameter)
    ensures Rows(b, Tables.Result) == Rows(db, Tables.Result)
  {
    GrowsTrans(db, a, b, 0, 5, 6, 6);
    LaterKept(db, b, 6, Tables.Parameter);
    LaterKept(db, b, 6, Tables.Result);
  }

  /** `save` adds one parameter row per parameter of the file, and one more for a non-empty
      process count, and one result row per overhead and per timer. */
  lemma {:induction false} SaveAllCounts(db: Db, env: Env, rd: PmtmReader.Reader, nullSafe: bool)
    requires SaveAll(db, env, rd, nullSafe).Success?
    ensures var sv := SaveAll(db, env, rd, nullSafe).value;
            && |Rows(sv.db, Tables.Parameter)| == |Rows(db, Tables.Parameter)| + |rd.parameters|
                 + (if rd.nprocs.Some? && rd.nprocs.value != "" then 1 else 0)
            && |Rows(sv.db, Tables.Result)| == |Rows(db, Tables.Result)| + |rd.overheads| + |rd.timers|
  {
    SaveAllParts(db, env, rd, nullSafe);
    FrontKept(db, rd, nullSafe);
    var a := SaveDimensions(db, rd, nullSafe).value;
    RunOnCounts(SaveFlags(a.0, rd.flags, nullSafe).value, RunObject(env, rd, a.1).value, rd, env, a.1, nullSafe);
  }

  /** Every non-empty flag of the file has a row after `save`. */
  lemma {:induction false} SaveAllFlags(db: Db, env: Env, rd: PmtmReader.Reader, nullSafe: bool)
    requires SaveAll(db, env, rd, nullSafe).Success?
    ensures forall k :: 0 <= k < |rd.flags| && rd.flags[k] != "" ==>
              Present(SaveAll(db, env, rd, nullSafe).value.db, FlagOf(rd.flags[k]), nullSafe)
  {
    SaveAllParts(db, env, rd, nullSafe);
    var a := SaveDimensions(db, rd, nullSafe).value;
    var b := SaveFlags(a.0, rd.flags, nullSafe).value;
    var run := RunObject(env, rd, a.1).value;
    FlagsStored(a.0, rd.flags, nullSafe);
    RunOnGrows(b, run, rd, env, a.1, nullSafe);
    var d := SaveAll(db, env, rd, nullSafe).value.db;
    forall k | 0 <= k < |rd.flags| && rd.flags[k] != ""
      ensures Present(d, FlagOf(rd.flags[k]), nullSafe)
    {
      PresentKept(b, d, 7, 10, FlagOf(rd.flags[k]), nullSafe);
    }
  }

  /** A file whose run id is already in the database is refused: importing a file with a
      run id a second time fails, whatever else the second file holds. */
  lemma {:induction false} ReimportRejected(db: Db, env: Env, rd: PmtmReader.Reader, env2: Env, rd2: PmtmReader.Reader, nullSafe: bool)
    requires SaveAll(db, env, rd, nullSafe).Success?
    requires rd.runId.Some? && rd.runId.value != "" && rd2.runId == rd.runId
    ensures SaveAll(SaveAll(db, env, rd, nullSafe).value.db, env2, rd2, nullSafe).Failure?
  {
    var sv := SaveAll(db, env, rd, nullSafe).value;
    var d := sv.db;
    SaveAllGrows(db, env, rd, nullSafe);
    SaveAllParts(db, env, rd, nullSafe);
    var run1 := RunObject(env, rd, sv.dims).value;
    assert Present(d, run1, nullSafe);
    if SaveDimensions(d, rd2, nullSafe).Success? {
      var a := SaveDimensions(d, rd2, nullSafe).value;
      if SaveFlags(a.0, rd2.flags, nullSafe).Success? && RunObject(env2, rd2, a.1).Success? {
        var b := SaveFlags(a.0, rd2.flags, nullSafe).value;
        var run2 := RunObject(env2, rd2, a.1).value;
        DimensionsInOrder(d, rd2, nullSafe);
        FlagsGrow(a.0, rd2.flags, nullSafe);
        PresentKept(d, a.0, 0, 5, run1, nullSafe);
        PresentKept(a.0, b, 6, 6, run1, nullSafe);
        assert Conditions(run2) == Conditions(run1);
        RunAlreadyThere(b, run2, nullSafe);
      }
    }
  }

  /** Consecutive dimension steps fail when one of their objects can never be upserted. */
  lemma {:induction false} ListFails(db: Db, objs: seq<Option<SqlObject>>, i: nat, nullSafe: bool)
    requires forall j :: 0 <= j < |objs| && objs[j].Some? ==> objs[j].value.id.None?
    requires i < |objs| && objs[i].Some?
    requires forall d :: FetchOrSaveWith(d, objs[i].value, nullSafe).Failure?
    ensures SaveList(db, objs, nullSafe).Failure?
    decreases i
  {
    if i > 0 && SaveDimension(db, objs[0], nullSafe).Success? {
      var tail := objs[1..];
      assert tail[i - 1] == objs[i];
      ListFails(SaveDimension(db, objs[0], nullSafe).value.0, tail, i - 1, nullSafe);
    }
  }

  /** With the statement as written, a file of a version that predates the vendor column
      (so that its machine has no vendor) can never be imported: the machine is looked up
      with `Vendor=NULL`, never found, and so never read back after its insert. */
  lemma {:induction false} OldFileNeverImported(db: Db, env: Env, rd: PmtmReader.Reader, name: string)
    requires rd.machine == Some(PmtmReader.Machine(None, name))
    ensures SaveAll(db, env, rd, false).Failure?
  {
    var objs := FirstFive(rd);
    FirstFivePlaced(rd);
    assert objs[2] == Some(MachineOf(name, None));
    forall d ensures FetchOrSaveWith(d, MachineOf(name, None), false).Failure? {
      OldMachineNeverSaved(d, name);
    }
    ListFails(db, objs, 2, false);
  }

  /** With the statement as written, a run without a run id that lacks a dimension is never
      saved: its key holds `NULL`, so it is never read back after its insert. */
  lemma {:induction false} RunlessRunFails(db: Db, env: Env, rd: PmtmReader.Reader, dims: Dimensions)
    requires RunObject(env, rd, dims).Success? && (rd.runId.None? || rd.runId == Some(""))
    requires dims.machine.None? || dims.os.None? || dims.processor.None? || dims.compiler.None? || dims.mpi.None?
             || dims.application.None?
    ensures SaveRun(db, RunObject(env, rd, dims).value, false).Failure?
  {
    var run := RunObject(env, rd, dims).value;
    var k := if dims.machine.None? then 1 else if dims.os.None? then 2 else if dims.processor.None? then 3
             else if dims.compiler.None? then 4 else if dims.mpi.None? then 5 else 6;
    assert run.key[k] in run.values && run.values[run.key[k]] == SNone;
    NullKeySaveFails(db, run, k);
  }

  /** With the statement as written, a file without a run id that lacks any one of the
      dimensions can never be imported. */
  lemma {:induction false} RunlessFileNeverImported(db: Db, env: Env, rd: PmtmReader.Reader)
    requires rd.runId.None? || rd.runId == Some("")
    requires rd.machine.None? || rd.os.None? || rd.processor.None? || rd.compiler.None? || rd.mpi.None?
             || rd.application.None?
    ensures SaveAll(db, env, rd, false).Failure?
  {
    if SaveDimensions(db, rd, false).Success? {
      var a := SaveDimensions(db, rd, false).value;
      if SaveFlags(a.0, rd.flags, false).Success? && RunObject(env, rd, a.1).Success? {
        DimensionIds(db, rd, false);
        RunlessRunFails(SaveFlags(a.0, rd.flags, false).value, env, rd, a.1);
      }
    }
  }

  /** With the `IS NULL` test, a run without a run id and with missing dimensions is saved
      when no equal run is there yet. */
  lemma {:induction false} RunlessRunSaved(db: Db, env: Env, rd: PmtmReader.Reader, dims: Dimensions)
    requires RunObject(env, rd, dims).Success? && (rd.runId.None? || rd.runId == Some(""))
    requires Tables.Run !in db.refusing
    requires var run := RunObject(env, rd, dims).value;
             Conditions(run).Success? && Matching(Rows(db, Tables.Run), Conditions(run).value, true) == []
    ensures SaveRun(db, RunObject(env, rd, dims).value, true).Success?
  {
    var run := RunObject(env, rd, dims).value;
    RunValuesPlain(env.login.value, dims, env.now, env.timestamp(rd.datetime), rd.runId, rd.tag.value, env.storeFile);
    FetchOutcomes(db, run, true);
    FetchOrSaveFinds(db, run);
  }

  /** The outcome of `main`: the database once the connection closes, and the message of
      the exception that ended it, if any. */
  datatype Outcome = Outcome(db: Db, error: Option<string>)

  /** `main`: the file is parsed, then saved; any exception rolls the transaction back, and
      so does a dry run; only a complete save that is not a dry run is committed. */
  function ImportWith(env: Env, clock: PmtmReader.Clock, rows: seq<seq<string>>, db: Db, dryRun: bool, nullSafe: bool): (r: Outcome)
    ensures r.error.Some? || dryRun ==> r.db == db
    ensures r.error.None? <==>
              PmtmReader.Parse(clock, rows).Success? && SaveAll(db, env, PmtmReader.Parse(clock, rows).value, nullSafe).Success?
    ensures r.error.None? && !dryRun ==> r.db == SaveAll(db, env, PmtmReader.Parse(clock, rows).value, nullSafe).value.db
  {
    match PmtmReader.Parse(clock, rows)
    case Failure(e) => Outcome(db, Some(e))
    case Success(rd) =>
      match SaveAll(db, env, rd, nullSafe)
      case Failure(e) => Outcome(db, Some(e))
      case Success(sv) => Outcome(if dryRun then db else sv.db, None)
  }

  /** `main` with the corrected fetch. */
  function Import(env: Env, clock: PmtmReader.Clock, rows: seq<seq<string>>, db: Db, dryRun: bool): Outcome {
    ImportWith(env, clock, rows, db, dryRun, true)
  }

  /** `main` with the fetch as written. */
  function ImportAsWritten(env: Env, clock: PmtmReader.Clock, rows: seq<seq<string>>, db: Db, dryRun: bool): Outcome {
    ImportWith(env, clock, rows, db, dryRun, false)
  }

  /** Whatever happens, an import only appends rows, table after table in the order of the
      steps. */
  lemma {:induction false} ImportOnlyAppends(env: Env, clock: PmtmReader.Clock, rows: seq<seq<string>>, db: Db, dryRun: bool, nullSafe: bool)
    ensures Grows(db, ImportWith(env, clock, rows, db, dryRun, nullSafe).db, 0, 10)
  {
    var r := ImportWith(env, clock, rows, db, dryRun, nullSafe);
    if r.error.None? && !dryRun {
      SaveAllGrows(db, env, PmtmReader.Parse(clock, rows).value, nullSafe);
    } else {
      GrowsRefl(db, 0, 10);
    }
  }

  /** Importing the same file again, once it has been committed, fails when the file has a
      run id. */
  lemma {:induction false} ImportTwiceRejected(env: Env, env2: Env, clock: PmtmReader.Clock, rows: seq<seq<string>>, db: Db, dryRun: bool, nullSafe: bool)
    requires ImportWith(env, clock, rows, db, false, nullSafe).error.None?
    requires var id := PmtmReader.Parse(clock, rows).value.runId; id.Some? && id.value != ""
    ensures ImportWith(env2, clock, rows, ImportWith(env, clock, rows, db, false, nullSafe).db, dryRun, nullSafe).error.Some?
  {
    var rd := PmtmReader.Parse(clock, rows).value;
    ReimportRejected(db, env, rd, env2, rd, nullSafe);
  }
}
