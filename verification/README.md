# PMAT results import and analysis core, in Dafny

PMAT is a performance modelling and analysis tool. Instrumented scientific applications write
performance reports, and PMAT stores them in a relational results database for later analysis
and plotting. This project models the core of PMAT as immutable datatypes and pure functions,
and proves properties of them.

The Python importer is modelled in full:
- `PmtmReader`: the versioned reader of PMTM timing files.
- `PmtmSql` and `PmtmSqlValues`: the fetch-or-save upsert engine over an abstract map from
  table to rows, and its pure value helpers.
- `PmtmImport`: the save orchestration, with its "run already in database" guard and its
  commit or rollback outcome.

The Java results application is modelled as follows:
- Loaders: the PMTM, SkaMPI and HPC Challenge loaders, with their version enums and header
  checkers.
- Domain records: ranks, values, runs, run data, the data grid, analyses and the six kinds of
  metadata.
- SQL fragment builders: `JdbcMapping`, `JdbcTable` and `JdbcUtils`.
- Derived-data expressions.
- Plotting: the graph configuration, line types, GnuPlot axis commands, and the data rows and
  image sizes of `AbstractPlotter`.
- Utilities and small state models: the combo-box, series-table and run-table models, the
  event hub, the configuration keys, the run saver's naming and guessing, and the exception
  dialog's line wrapping.

Conventions:
- `Option` stands for a Java `null` or a Python `None`.
- `Result` stands for a thrown exception; its error carries the exception's class or message.
- Java `String` and Python `str` behaviour is stated in `JavaText` and `PyText`, over `seq<char>`: a character is a Unicode scalar value, not a UTF-16 code unit or a byte.
- `java.io.File` paths are stated in `JavaFile`.
- Doubles are modelled in `JavaNumber` by the exact value of their decimal text.
- Dates, MD5 sums and `Double.toString` are parameters of the functions that need them (`showDouble` or `show`).

## Model

| member | source | states |
|---|---|---|
| PmtmReader.LessTotal | sql/ImportPMTM/pmtm_reader.py:57 | Python's tuple comparison used for the version is a strict total order: never both ways, and any two distinct versions are ordered |
| PmtmReader.LessIrreflexive | sql/ImportPMTM/pmtm_reader.py:57 | no version is later than itself |
| PmtmReader.LessTransitive | sql/ImportPMTM/pmtm_reader.py:57 | the version order is transitive |
| PmtmReader.LaterIffNotAtMost | sql/ImportPMTM/pmtm_reader.py:57-79 | `version > v` holds exactly when `version <= v` fails, so the trailer check and the machine back-fill split versions at complementary thresholds |
| PmtmReader.Key | sql/ImportPMTM/pmtm_reader.py:135 | the method key of a tag has the tag's length and no spaces |
| PmtmReader.HandlerFor | sql/ImportPMTM/pmtm_reader.py:135 | the handler found for a key is named by that key, and no handler is found only when none has that name |
| PmtmReader.HandlerForName | sql/ImportPMTM/pmtm_reader.py:60-135 | every `process_*` method is found again from its own name |
| PmtmReader.Process | sql/ImportPMTM/pmtm_reader.py:133-136 | a `#Type` row changes nothing; another tag runs the method its key names, and a tag naming no method is an error |
| PmtmReader.StripAll | sql/ImportPMTM/pmtm_reader.py:142-144 | every cell is stripped, in order |
| PmtmReader.Drop | sql/ImportPMTM/pmtm_reader.py:142-144 | `cols[n:]` is the suffix from `n`, empty when the row is shorter |
| PmtmReader.ParseLineDispatch | sql/ImportPMTM/pmtm_reader.py:138-144 | a row whose stripped tag names a method is handed to that method with the row's columns |
| PmtmReader.DispatchOrdinary | sql/ImportPMTM/pmtm_reader.py:143-144 | any tag other than `specific` gets the stripped cells from index 2 |
| PmtmReader.UnhandledKeys | sql/ImportPMTM/pmtm_reader.py:134-140 | neither the empty tag nor `#Type` names a handler |
| PmtmReader.DispatchSpecific | sql/ImportPMTM/pmtm_reader.py:141-142 | a `specific` tag in any letter case gets the stripped cells from index 1 |
| PmtmReader.Consume | sql/ImportPMTM/pmtm_reader.py:45-55 | the loop reports that it met the end marker exactly when the rows contain it |
| PmtmReader.Parse | sql/ImportPMTM/pmtm_reader.py:41-58 | an empty file or a first row other than the header is refused; an error in a row is an error of the parse |
| PmtmReader.ConsumeStopsAtEnd | sql/ImportPMTM/pmtm_reader.py:52-53 | rows after the first end marker are never dispatched |
| PmtmReader.ParseStopsAtEnd | sql/ImportPMTM/pmtm_reader.py:52-57 | anything after the first end marker has no effect on the parse |
| PmtmReader.EmptyRowSkipped | sql/ImportPMTM/pmtm_reader.py:54-55 | an empty row before the end marker changes nothing |
| PmtmReader.TerminatedAccepted | sql/ImportPMTM/pmtm_reader.py:52-58 | a file closed by the end marker is accepted whatever its version |
| PmtmReader.UnterminatedAccepted | sql/ImportPMTM/pmtm_reader.py:57-58 | a file without the end marker is accepted exactly when its version is at most (0, 2, 6); a missing version row is an error |
| PmtmReader.SkippedAndUnknownTags | sql/ImportPMTM/pmtm_reader.py:134-140 | an empty tag and `#Type` leave the reader unchanged; a tag with no handler is fatal |
| PmtmReader.SpecificRow | sql/ImportPMTM/pmtm_reader.py:128-142 | a `specific` row adds the parameter `('0', name, value)` from its second and fourth cells |
| PmtmReader.HandleSpecific | sql/ImportPMTM/pmtm_reader.py:128-131 | `process_specific` needs three columns and appends `('0', cols[0], cols[2])` |
| PmtmReader.LabelIgnored | sql/ImportPMTM/pmtm_reader.py:143-144 | the label cell of an ordinary row never influences the outcome |
| PmtmReader.SameKeySameEffect | sql/ImportPMTM/pmtm_reader.py:135-139 | two tags with the same stripped, lower-cased, underscored key have the same effect |
| PmtmReader.KeySpecific | sql/ImportPMTM/pmtm_reader.py:135-141 | the key is `specific` exactly when the lower-cased tag is, so the two tests agree |
| PmtmReader.OsSystemAlias | sql/ImportPMTM/pmtm_reader.py:87-92 | an `os` row and a `system` row with the same columns give the same reader |
| PmtmReader.HandleOsSystem | sql/ImportPMTM/pmtm_reader.py:87-92 | `process_os` and `process_system` are the same and need exactly four columns |
| PmtmReader.MachineColumns | sql/ImportPMTM/pmtm_reader.py:78-82 | up to version (2, 1, 1) one column gives `(None, name)`; later versions need vendor and name; another count, or no version, is an error |
| PmtmReader.WillowExample | sql/ImportPMTM/pmtm_read_tests.py:175 | in a 2.1.1 file the row `Machine, Name, WILLOW` gives the machine `(None, 'WILLOW')` |
| PmtmReader.ParameterColumns | sql/ImportPMTM/pmtm_reader.py:116-117 | a parameter keeps the even columns: 5 or 6 columns give (rank, name, value) from positions 0, 2, 4 |
| PmtmReader.OverheadColumns | sql/ImportPMTM/pmtm_reader.py:113-114 | an overhead keeps the even columns: 7 or 8 columns give positions 0, 2, 4, 6 |
| PmtmReader.TimerColumns | sql/ImportPMTM/pmtm_reader.py:119-120 | a timer keeps `cols[:7:2] + cols[9::2]`: 12 or 13 columns give positions 0, 2, 4, 6, 9, 11 |
| PmtmReader.ApplicationSplit | sql/ImportPMTM/pmtm_reader.py:63-67 | the name has no space and name, space and version give the cell back; a cell without a space is all name |
| PmtmReader.ApplicationOfCell | sql/ImportPMTM/pmtm_reader.py:63-67 | a space-free name, a space and any version give that name and version back |
| PmtmReader.EnvironSplit | sql/ImportPMTM/pmtm_reader.py:122-126 | the name is the text before the first `=` and the value is the rest with its `=` signs; nothing else changes |
| PmtmReader.DateAdds | sql/ImportPMTM/pmtm_reader.py:106-107 | a date row adds its reading to `datetime`, and fails when the date does not parse |
| PmtmReader.TimeAdds | sql/ImportPMTM/pmtm_reader.py:109-111 | a time row adds its offset from minute zero to `datetime` |
| PmtmReader.DateTimeCommute | sql/ImportPMTM/pmtm_reader.py:106-111 | date and time rows may come in either order |
| PmtmReader.VersionRow | sql/ImportPMTM/pmtm_reader.py:60-61 | a dotted version reads back as its integer parts |
| PmtmReader.IntsOfIntStrs | sql/ImportPMTM/pmtm_reader.py:61 | the decimal forms of three integers read back as those integers |
| PmtmReader.IntsOf3 | sql/ImportPMTM/pmtm_reader.py:61 | three cells that each read as an integer read together as the three integers |
| PmtmSql.Matching | sql/ImportPMTM/pmtm_sql.py:66-68 | the rows a `SELECT ID ... WHERE` returns are rows of the table that pass every test of the clause, no more of them than the table holds; `name=literal` is exact equality, the column collation is not modelled |
| PmtmSql.MatchingMembers | sql/ImportPMTM/pmtm_sql.py:66-68 | every row of the table that passes the clause is among those the `SELECT` returns |
| PmtmSql.MatchingConcat | sql/ImportPMTM/pmtm_sql.py:66-68 | selecting from two runs of rows gives the selection of the first followed by that of the second, in table order |
| PmtmSql.KeyConditions | sql/ImportPMTM/pmtm_sql.py:87-88 | the `find_clause` tests each business-key column, in key order, against the object's value for it; it can be written exactly when every key column has a value of a type `_sql_tostring` accepts |
| PmtmSql.Conditions | sql/ImportPMTM/pmtm_sql.py:228-238 | a `Run` with a non-empty `run_id` is searched by `RunID` alone |
| PmtmSql.FetchWith | sql/ImportPMTM/pmtm_sql.py:65-72 | `fetch` changes nothing of the object but its `id` |
| PmtmSql.FetchOutcomes | sql/ImportPMTM/pmtm_sql.py:65-72 | exactly one matching row gives the object that row's `ID`; several raise "Multiple entries"; none leave the object as it was |
| PmtmSql.FetchKeyOnly | sql/ImportPMTM/pmtm_sql.py:87-88 | whether `fetch` succeeds and which `ID` it finds depend only on the business-key columns, not on the other values |
| PmtmSql.RunFetchByRunId | sql/ImportPMTM/pmtm_sql.py:228-236 | two runs with the same non-empty `run_id` fetch alike whatever their other columns |
| PmtmSql.EmptyKeyUnfetchable | sql/ImportPMTM/pmtm_sql.py:87-88 | an object without a business key (a parameter or a timer) gives an empty `WHERE` clause, so it cannot be fetched |
| PmtmSql.Insert | sql/ImportPMTM/pmtm_sql.py:55-59 | the `INSERT` appends one row with the next auto-increment `ID` and the object's values, and fails ("Failed to save") exactly when a value has no SQL literal or the server affects no row |
| PmtmSql.InsertFrame | sql/ImportPMTM/pmtm_sql.py:55-59 | an insert keeps every `ID` below the next one, leaves every other table as it was, and the new `ID` was not used before |
| PmtmSql.AppendsTrans | sql/ImportPMTM/pmtm_sql.py:49-63 | appending `m` rows to a table and then `n` more appends `m + n` |
| PmtmSql.SaveWith | sql/ImportPMTM/pmtm_sql.py:54-63 | `save` is the insert followed, when `update_id`, by a fetch that must give the object an `id`; without `update_id` the object comes back unchanged |
| PmtmSql.SaveKeyed | sql/ImportPMTM/pmtm_sql.py:54-63 | a successful `save` adds one row and leaves exactly one row matching the object's clause, the one whose `ID` the object now has |
| PmtmSql.FetchOrSaveWith | sql/ImportPMTM/pmtm_sql.py:49-52 | when the fetch finds the object, `fetch_or_save` writes nothing |
| PmtmSql.FetchFound | sql/ImportPMTM/pmtm_sql.py:65-72 | a fetch that gives an `id` found exactly one row, the one with that `ID` |
| PmtmSql.FetchOrSaveKeyed | sql/ImportPMTM/pmtm_sql.py:49-63 | a successful `fetch_or_save` leaves the object with an `id` that exactly one row of its table matches, and adds at most one row |
| PmtmSql.MatchingGrows | sql/ImportPMTM/pmtm_sql.py:49-63 | appending rows never removes a row from a selection |
| PmtmSql.StoredRowMatches | sql/ImportPMTM/pmtm_sql.py:55-61 | the row an insert stores passes the object's own clause when `NULL` is tested with `IS NULL` |
| PmtmSql.FetchOrSaveFinds | sql/ImportPMTM/pmtm_sql.py:49-63 | with the `IS NULL` test, `fetch_or_save` of a keyed object succeeds whenever the table holds at most one match and accepts inserts, and afterwards exactly one row matches |
| PmtmSql.FetchOrSaveIdempotent | sql/ImportPMTM/pmtm_sql.py:49-52 | a second `fetch_or_save` of the same values finds the row the first found or stored and writes nothing |
| PmtmSql.NothingMatches | sql/ImportPMTM/pmtm_sql.py:87-88 | a clause with `name=NULL` matches no row, since SQL's `=` is never true against NULL |
| PmtmSql.NullKeySaveFails | sql/ImportPMTM/pmtm_sql.py:60-63 | as written, `save` of an object with a `None` key value raises "Failed to save": the fetch after the insert finds nothing |
| PmtmSql.NullKeyNeverSaved | sql/ImportPMTM/pmtm_sql.py:49-52 | as written, `fetch_or_save` can never store an object with a `None` business-key value |
| PmtmSql.OptInt | sql/ImportPMTM/pmtm_sql.py:215-220 | `x.id if x else None`: NULL exactly when the record is missing, its id otherwise |
| PmtmSql.OptStr | sql/ImportPMTM/pmtm_sql.py:222 | a missing text is NULL, a present one is that string |
| PmtmSql.New | sql/ImportPMTM/pmtm_sql.py:45-47 | a new object has the given values and no `id` |
| PmtmSql.ApplicationOf | sql/ImportPMTM/pmtm_sql.py:92-108 | an application is keyed by name, major, minor and code, stores its name and the parsed version's parts among its eight columns, and is not private |
| PmtmSql.ApplicationBuildIgnored | sql/ImportPMTM/pmtm_sql.py:94 | two versions that differ only in their build number fetch the same application row |
| PmtmSql.VendorVersionValues | sql/ImportPMTM/pmtm_sql.py:117-125 | a compiler's or MPI's columns are its name, vendor and the parsed major, minor and build; the version code is dropped |
| PmtmSql.CompilerOf | sql/ImportPMTM/pmtm_sql.py:112-125 | a compiler is keyed by name, vendor and the three version numbers |
| PmtmSql.MpiOf | sql/ImportPMTM/pmtm_sql.py:142-155 | an MPI is keyed by name, vendor and the three version numbers |
| PmtmSql.MachineOf | sql/ImportPMTM/pmtm_sql.py:129-138 | a machine is keyed by name and vendor, and a missing vendor is NULL |
| PmtmSql.OsOf | sql/ImportPMTM/pmtm_sql.py:159-174 | an operating system is keyed by all seven columns, and the version code is stored as `VersionBuildMinor` |
| PmtmSql.ProcessorOf | sql/ImportPMTM/pmtm_sql.py:178-191 | a processor can be built exactly when the core, thread and clock texts are integers, and it stores them as integers |
| PmtmSql.FlagOf | sql/ImportPMTM/pmtm_sql.py:195-201 | a flag row is the flag text alone, keyed by it |
| PmtmSql.RunValues | sql/ImportPMTM/pmtm_sql.py:210-225 | a run stores its creator, the import time, the run date, its id, tag and file, is not private, and refers to each dimension row by id or NULL |
| PmtmSql.RunValuesPlain | sql/ImportPMTM/pmtm_sql.py:210-225 | every value of a run has an SQL literal |
| PmtmSql.RunOf | sql/ImportPMTM/pmtm_sql.py:205-226 | a run is keyed by its nine business columns and remembers its `run_id` for the fetch override |
| PmtmSql.SubRunOf | sql/ImportPMTM/pmtm_sql.py:242-248 | a sub-run is keyed by its parent run's id and its sequence number |
| PmtmSql.ParameterOf | sql/ImportPMTM/pmtm_sql.py:252-285 | a parameter can be built exactly when its rank converts for both the rank and the thread, has no business key, and stores its name, owner, typed value, rank and thread |
| PmtmSql.TimerValues | sql/ImportPMTM/pmtm_sql.py:294-304 | a timer stores its name, value, error, rank, thread, sub-run, counts and the error type `PMTM_STANDARD` |
| PmtmSql.TimerOf | sql/ImportPMTM/pmtm_sql.py:289-304 | a timer can be built exactly when its value and error are floats, its rank converts and its counts are integers |
| PmtmSql.AllRanksRank | sql/ImportPMTM/pmtm_sql.py:353-366 | `All Ranks` is rank -1 with no thread |
| PmtmSql.OverheadCounts | sql/ImportPMTM/pmtm_sql.py:312 | the overhead's count texts `10000` and `0` are integers |
| PmtmSql.OverheadIsTimer | sql/ImportPMTM/pmtm_sql.py:308-312 | an overhead is a timer named `Timer overhead for` the timer, over all ranks, with count 10000 and no pauses; it can be built exactly when its value and error are floats |
| PmtmSql.OldMachineNeverSaved | sql/ImportPMTM/pmtm_sql.py:129-138 | as written, a machine without a vendor can never be stored |
| PmtmSql.OldMachineSaved | sql/ImportPMTM/pmtm_sql.py:129-138 | with the `IS NULL` test, a machine without a vendor is fetched or stored and given an id |
| PmtmSql.KeyableSaved | sql/ImportPMTM/pmtm_sql.py:49-63 | an object with a non-empty clause and literal values passes its own clause once stored; with the `IS NULL` test, if no row of a writable table matches it yet, `fetch_or_save` appends exactly one row and leaves the object with the id of the one row its clause matches |
| PmtmSql.KeyClause | sql/ImportPMTM/pmtm_sql.py:87-88 | for an object without a run id whose key columns all have values, the clause has one test per key column, in key order, each against the object's own value |
| PmtmSql.ApplicationKeyable | sql/ImportPMTM/pmtm_sql.py:92-108 | an application always has a usable clause that tests its name and version code and never its build number |
| PmtmSql.VendorVersionKeyable | sql/ImportPMTM/pmtm_sql.py:112-155 | a compiler and an MPI built from the same texts have the same usable five-test clause, testing name, vendor and build |
| PmtmSql.MachineKeyable | sql/ImportPMTM/pmtm_sql.py:129-138 | a machine's clause tests the name and then the vendor, NULL when it is missing |
| PmtmSql.OsKeyable | sql/ImportPMTM/pmtm_sql.py:159-174 | an operating system's usable clause has seven tests, among them the kernel and the vendor |
| PmtmSql.ProcessorKeyable | sql/ImportPMTM/pmtm_sql.py:178-191 | a processor that can be built has a usable six-test clause, among them its name and its clock speed as an integer |
| PmtmSql.FlagKeyable | sql/ImportPMTM/pmtm_sql.py:195-201 | a flag's clause is the single test of its text |
| PmtmSql.SubRunKeyable | sql/ImportPMTM/pmtm_sql.py:242-248 | a sub-run's clause tests its parent run (NULL when absent) and then its sequence number |
| PmtmSql.RunKeyable | sql/ImportPMTM/pmtm_sql.py:205-238 | a run always has a usable clause: its `RunID` alone when the run id is non-empty, otherwise nine tests among them the creator, the tag and the machine |
| PmtmSql.UnkeyedSaved | sql/ImportPMTM/pmtm_sql.py:54-63 | an object without a key cannot be fetched, and a `save` without `update_id` succeeds exactly when its table accepts inserts, then appending one row |
| PmtmSql.ParameterPlain | sql/ImportPMTM/pmtm_sql.py:252-285 | a parameter that can be built has no key, no run id, no id, and a literal for every column |
| PmtmSql.TimerPlain | sql/ImportPMTM/pmtm_sql.py:289-312 | a timer or overhead that can be built has no key, no run id, no id, and a literal for every column |
| PmtmSqlValues.EscapeChar | sql/ImportPMTM/pmtm_sql.py:339 | a character the string literal must escape becomes a backslash and one more character; every other character is kept |
| PmtmSqlValues.StringLiteral | sql/ImportPMTM/pmtm_sql.py:339 | a string value is written between single quotes |
| PmtmSqlValues.ReadEscapedChar | sql/ImportPMTM/pmtm_sql.py:339 | reading one escaped character back gives that character in front of what the rest reads as |
| PmtmSqlValues.ReadEscaped | sql/ImportPMTM/pmtm_sql.py:339 | the escaped body of a literal followed by its closing quote reads back as the original string, leaving what follows |
| PmtmSqlValues.LiteralRoundTrip | sql/ImportPMTM/pmtm_sql.py:339 | the server reads a quoted literal back as exactly the string that was written, whatever quotes or backslashes it holds |
| PmtmSqlValues.ToSql | sql/ImportPMTM/pmtm_sql.py:337-349 | `_sql_tostring` writes strings, integers, floats, booleans, `None` and dates, and raises "Unknown object type" exactly for any other value |
| PmtmSqlValues.Stored | sql/ImportPMTM/pmtm_sql.py:342-347 | a boolean is stored as the integer `int(b)` and a date as its text, so no stored cell is a boolean or a date; a float keeps its exact value, not the server's reading of its text |
| PmtmSqlValues.ReadToSql | sql/ImportPMTM/pmtm_sql.py:337-349 | what `_sql_tostring` writes for a string, integer, boolean, `None` or date, the server reads back as the value the column stores |
| PmtmSqlValues.ReadIntStr | sql/ImportPMTM/pmtm_sql.py:341 | `str(i)` of an integer, negative or not, reads back as that integer |
| PmtmSqlValues.ParseVersion | sql/ImportPMTM/pmtm_sql.py:316-333 | the parsed major, minor and build are never negative, and an integer code appears only in the fallback `(0, 0, 0, 0)` |
| PmtmSqlValues.ParseDottedVersion | sql/ImportPMTM/pmtm_sql.py:317-323 | `[v]M.m.b<code>` parses to major M, minor m, build b and the stripped code |
| PmtmSqlValues.ParseShortVersion | sql/ImportPMTM/pmtm_sql.py:317-323 | `M.m<code>` without a build parses with build 0 |
| PmtmSqlValues.ParseCompactVersion | sql/ImportPMTM/pmtm_sql.py:325-331 | a dotless version starting with four digits `DDdd` parses as major DD, minor d, build d and an empty code |
| PmtmSqlValues.ParseVersionFallback | sql/ImportPMTM/pmtm_sql.py:333 | a version with no digit at all parses to `(0, 0, 0, 0)`, with the integer 0 as its code |
| PmtmSqlValues.BuildAndCodeOf | sql/ImportPMTM/pmtm_sql.py:321-322 | after the minor, `.b<code>` gives build b and the code |
| PmtmSqlValues.NoBuildCode | sql/ImportPMTM/pmtm_sql.py:321-322 | after the minor, a code that does not start with a dot gives build 0 and that code |
| PmtmSqlValues.MatchMinorOf | sql/ImportPMTM/pmtm_sql.py:317-320 | the minor group takes every digit after the dot |
| PmtmSqlValues.MatchMajorOf | sql/ImportPMTM/pmtm_sql.py:317-319 | the major group takes every digit before the dot, the rest then matches as minor, build and code |
| PmtmSqlValues.MatchDottedPrefix | sql/ImportPMTM/pmtm_sql.py:317 | the optional `v` or `V` before the major is skipped |
| PmtmSqlValues.CodeRead | sql/ImportPMTM/pmtm_sql.py:322 | a code without surrounding space or line break survives `.strip()` of the last group |
| PmtmSqlValues.DigitRun | sql/ImportPMTM/pmtm_sql.py:317 | `\d+` takes the longest run of leading digits |
| PmtmSqlValues.DigitRunOf | sql/ImportPMTM/pmtm_sql.py:317 | the run of digits in front of a non-digit is exactly those digits |
| PmtmSqlValues.LineEnd | sql/ImportPMTM/pmtm_sql.py:317 | `(.*)` stops at the first line break |
| PmtmSqlValues.RankOfSpecial | sql/ImportPMTM/pmtm_sql.py:354-366 | each special rank name converts to its fixed negative number, -1 to -6 in order, and has no thread |
| PmtmSqlValues.SpecialDisplaysDistinct | sql/ImportPMTM/pmtm_sql.py:354-361 | the six special rank names are distinct, so the rank map is well defined |
| PmtmSqlValues.RankOfNumber | sql/ImportPMTM/pmtm_sql.py:368-371 | a plain number is its own rank and has no thread |
| PmtmSqlValues.NoSpecialHasDigits | sql/ImportPMTM/pmtm_sql.py:362-368 | no special rank name is all digits, so the two branches never overlap |
| PmtmSqlValues.RankOfRankThread | sql/ImportPMTM/pmtm_sql.py:373-377 | `R.T` gives rank R for the rank column and T for the thread column |
| PmtmSqlValues.RankPartsRead | sql/ImportPMTM/pmtm_sql.py:372-377 | any text that splits at one dot into two integers converts to those two integers |
| PmtmSqlValues.DottedNotSpecial | sql/ImportPMTM/pmtm_sql.py:362 | a text with a dot is not a special rank name |
| PmtmSqlValues.JavaRejectsRankThread | results_app/src/uk/co/awe/pmat/db/Rank.java:155-162 | the `R.T` rank the importer stores as rank R is one the Java reader's `fromString` refuses |
| PmtmSqlValues.RankRejected | sql/ImportPMTM/pmtm_sql.py:372-373 | a rank that is neither special, nor all digits, nor dotted raises at the unpacking of the split |
| PmtmSqlValues.TypeValue | sql/ImportPMTM/pmtm_sql.py:257-274 | a parameter's type is `String`, `Integer` or `Double`, and exactly the column of that type holds the value |
| PmtmSqlValues.OneValueColumn | sql/ImportPMTM/pmtm_sql.py:257-274 | exactly one of the double, integer and string columns is non-NULL |
| PmtmSqlValues.TypeOfInteger | sql/ImportPMTM/pmtm_sql.py:266-268 | the text of an integer is typed `Integer` with that value |
| PmtmSqlValues.TypeValueStripped | sql/ImportPMTM/pmtm_sql.py:261 | the value is stripped first, so surrounding space never changes the typing |
| PmtmSqlValues.TypeOfBoolean | sql/ImportPMTM/pmtm_sql.py:263-265 | `true` or `false` in any case is typed `String` with the lower-case text |
| PmtmImport.StepIndex | sql/ImportPMTM/pmtm_import.py:47-57 | each table the import writes has one place in the order of `save` |
| PmtmImport.GrowsTrans | sql/ImportPMTM/pmtm_import.py:47-57 | steps that each only append to their own tables compose into one that only appends to the union of them |
| PmtmImport.LaterKept | sql/ImportPMTM/pmtm_import.py:47-57 | a table written by a later step is untouched by the earlier ones |
| PmtmImport.SaveDimension | sql/ImportPMTM/pmtm_import.py:121-155 | a dimension the file lacks is skipped and leaves no id; a present one is fetched or saved, adds at most one row, and is left with the id of the one row its key matches |
| PmtmImport.ApplicationObject | sql/ImportPMTM/pmtm_import.py:121-125 | an `Application` record is built exactly when the file names an application |
| PmtmImport.CompilerObject | sql/ImportPMTM/pmtm_import.py:127-131 | a `Compiler` record is built exactly when the file names a compiler |
| PmtmImport.MachineObject | sql/ImportPMTM/pmtm_import.py:133-137 | a `Machine` record is built exactly when the file names a machine |
| PmtmImport.MpiObject | sql/ImportPMTM/pmtm_import.py:139-143 | an `MPI` record is built exactly when the file names an MPI |
| PmtmImport.OsObject | sql/ImportPMTM/pmtm_import.py:145-149 | an `OS` record is built exactly when the file names an operating system |
| PmtmImport.ProcessorObject | sql/ImportPMTM/pmtm_import.py:151-155 | a `Processor` record is built exactly when the file names a processor, and its integer fields must convert |
| PmtmImport.FirstFive | sql/ImportPMTM/pmtm_import.py:49-53 | the first five steps are application, compiler, machine, MPI and OS, each present exactly when the file has it |
| PmtmImport.DimensionSteps | sql/ImportPMTM/pmtm_import.py:49-54 | the six dimension tables are written in the order application, compiler, machine, MPI, OS, processor |
| PmtmImport.SaveList | sql/ImportPMTM/pmtm_import.py:49-54 | saving the dimensions in turn gives one id slot per dimension |
| PmtmImport.ListIds | sql/ImportPMTM/pmtm_import.py:121-155 | a dimension gets an id exactly when the file has it |
| PmtmImport.ListFails | sql/ImportPMTM/pmtm_import.py:49-54 | a dimension that can never be fetched or saved makes the whole save fail |
| PmtmImport.DimensionsInOrder | sql/ImportPMTM/pmtm_import.py:49-54 | the dimension steps only append, each to its own table |
| PmtmImport.DimensionIds | sql/ImportPMTM/pmtm_import.py:94-106 | each of the run's six dimension references is NULL exactly when the file lacked that dimension |
| PmtmImport.AbsentTablesKept | sql/ImportPMTM/pmtm_import.py:121-155 | a dimension the file lacks leaves its table as it was |
| PmtmImport.NonEmpty | sql/ImportPMTM/pmtm_import.py:115-116 | the flags saved are exactly the file's non-empty flags |
| PmtmImport.FlagsIgnoreEmpty | sql/ImportPMTM/pmtm_import.py:113-119 | empty flags make no difference to the save |
| PmtmImport.FlagsGrow | sql/ImportPMTM/pmtm_import.py:113-119 | saving flags only appends to the flags table |
| PmtmImport.PresentKept | sql/ImportPMTM/pmtm_import.py:47-57 | a row once found by its key is still found after later steps, which only append |
| PmtmImport.FlagsStored | sql/ImportPMTM/pmtm_import.py:113-119 | after the flags are saved, every non-empty flag of the file has its row |
| PmtmImport.RunObject | sql/ImportPMTM/pmtm_import.py:92-106 | the `Run` record can be built exactly when the login and the tag are known, and refers to the saved dimensions |
| PmtmImport.SaveRun | sql/ImportPMTM/pmtm_import.py:107-111 | a run is saved only when its fetch found nothing; it then adds one row and is given that row's id |
| PmtmImport.RunAlreadyThere | sql/ImportPMTM/pmtm_import.py:107-109 | a run already in the database raises "Run already in database" |
| PmtmImport.SaveSubRun | sql/ImportPMTM/pmtm_import.py:82-87 | the sub-run with sequence 0 of the run is fetched or saved, adds at most one row, and its id is the one row matching it |
| PmtmImport.EachStored | sql/ImportPMTM/pmtm_import.py:61-80 | saving parameters, overheads or timers with `update_id=False` appends one row per item, in order, each holding that item's values |
| PmtmImport.EachAppends | sql/ImportPMTM/pmtm_import.py:61-80 | a successful save of the items appends exactly as many rows as there are items, and every item could be built |
| PmtmImport.EachSucceeds | sql/ImportPMTM/pmtm_import.py:61-80 | saving a batch of literal-valued items of one table succeeds exactly when every item could be built and the batch is empty or the table accepts inserts |
| PmtmImport.ParameterItemsPlain | sql/ImportPMTM/pmtm_import.py:61-68 | every parameter record the import builds has a literal for every column |
| PmtmImport.ResultItemsPlain | sql/ImportPMTM/pmtm_import.py:70-80 | every overhead and timer record the import builds has a literal for every column |
| PmtmImport.ParameterRowsNamed | sql/ImportPMTM/pmtm_import.py:61-68 | the rows stored for the parameters are named by the file's parameters in order, followed by `PE Count` when the file gives a process count |
| PmtmImport.OverheadRowsNamed | sql/ImportPMTM/pmtm_import.py:70-74 | the rows stored for the overheads are named `Timer overhead for` each overhead's name, in order, each with count 10000 |
| PmtmImport.TimerRowsNamed | sql/ImportPMTM/pmtm_import.py:76-80 | the rows stored for the timers are named by the file's timers in order, each holding its timer's value read as a float |
| PmtmImport.DimensionObjectsKeyable | sql/ImportPMTM/pmtm_import.py:121-155 | every dimension record the import builds has a usable clause of its own |
| PmtmImport.ParameterItems | sql/ImportPMTM/pmtm_import.py:61-68 | the parameters saved are the file's, in order, then `PE Count` with rank `Unknown` when the file gives a process count |
| PmtmImport.OverheadItems | sql/ImportPMTM/pmtm_import.py:70-74 | one overhead record per overhead of the file, in order |
| PmtmImport.TimerItems | sql/ImportPMTM/pmtm_import.py:76-80 | one timer record per timer of the file, in order |
| PmtmImport.RowsCounted | sql/ImportPMTM/pmtm_import.py:88-90 | the sub-run's rows add one parameter row per parameter (plus `PE Count`) and one result row per overhead and timer |
| PmtmImport.RunOnGrows | sql/ImportPMTM/pmtm_import.py:55-57 | the run and its sub-run add exactly one run row, and each has the id of the one row its key matches |
| PmtmImport.RunOnCounts | sql/ImportPMTM/pmtm_import.py:56-57 | the run step adds exactly the parameter and result rows the file holds |
| PmtmImport.SaveAllGrows | sql/ImportPMTM/pmtm_import.py:47-59 | a successful `save` only appends, in step order, adds exactly one run, and leaves the run and its sub-run each found by its key |
| PmtmImport.SaveAllCounts | sql/ImportPMTM/pmtm_import.py:47-59 | a successful `save` adds exactly one parameter row per parameter (plus `PE Count`) and one result row per overhead and timer |
| PmtmImport.SaveAllFlags | sql/ImportPMTM/pmtm_import.py:47-59 | after a successful `save` every non-empty flag of the file is in the flags table |
| PmtmImport.ReimportRejected | sql/ImportPMTM/pmtm_import.py:107-109 | once a file with a run id is imported, any file with the same run id is rejected |
| PmtmImport.OldFileNeverImported | sql/ImportPMTM/pmtm_import.py:133-137 | as written, a file whose machine has no vendor can never be imported |
| PmtmImport.RunlessRunFails | sql/ImportPMTM/pmtm_import.py:107-111 | as written, a run without a run id that lacks a dimension can never be saved: its key holds `NULL` |
| PmtmImport.RunlessFileNeverImported | sql/ImportPMTM/pmtm_import.py:92-111 | as written, a file without a run id that lacks any dimension can never be imported |
| PmtmImport.RunlessRunSaved | sql/ImportPMTM/pmtm_import.py:107-111 | with the `IS NULL` test, such a run is saved whenever no run with its key exists |
| PmtmImport.ImportWith | sql/ImportPMTM/pmtm_import.py:176-193 | an import changes the database exactly when the file parses, the save succeeds and it is not a dry run; an error or a dry run rolls back everything |
| PmtmImport.ImportOnlyAppends | sql/ImportPMTM/pmtm_import.py:176-193 | an import, whatever its outcome, only appends rows |
| PmtmImport.ImportTwiceRejected | sql/ImportPMTM/pmtm_import.py:176-193 | importing the same file with a run id a second time fails |
| Rank.SpecialTable | results_app/src/uk/co/awe/pmat/db/Rank.java:50-56 | the six special ranks have the codes -1 to -6 in order, and distinct display names and distinct enum names |
| Rank.SpecialOf | results_app/src/uk/co/awe/pmat/db/Rank.java:93-98 | each special code belongs to exactly the special rank with that code |
| Rank.FindDisplay | results_app/src/uk/co/awe/pmat/db/Rank.java:79-84 | `RankEnum.fromString` finds the special rank with the given display name, or none when no special rank has it |
| Rank.FindEnumName | results_app/src/uk/co/awe/pmat/db/Rank.java:171-178 | `RankEnum.valueOf` finds the special rank with the given constant name, or none |
| Rank.FromInteger | results_app/src/uk/co/awe/pmat/db/Rank.java:136-147 | a null integer is `UNKNOWN`; any other integer gives the rank with that value |
| Rank.FromString | results_app/src/uk/co/awe/pmat/db/Rank.java:155-162 | a special display name gives its special rank; any other text must parse as a 32-bit integer, which is then the rank, and otherwise fails with `NumberFormatException` |
| Rank.ValueOf | results_app/src/uk/co/awe/pmat/db/Rank.java:171-178 | a special constant name gives its special rank; any other text must parse as an integer |
| Rank.ToString | results_app/src/uk/co/awe/pmat/db/Rank.java:194-200 | a special rank prints its display name, a non-negative rank its number, and a rank below -6 has no text |
| Rank.Name | results_app/src/uk/co/awe/pmat/db/Rank.java:185-191 | a special rank's name is its constant name, a non-negative rank's name is its digits, and a rank below -6 has none |
| Rank.EqualsHashCompare | results_app/src/uk/co/awe/pmat/db/Rank.java:203-227 | equal ranks hash alike, and `compareTo` is the difference of the rank numbers, zero exactly for equal ranks |
| Rank.FromStringToString | results_app/src/uk/co/awe/pmat/db/Rank.java:155-200 | `fromString(toString())` gives back every special or non-negative rank |
| Rank.ValueOfName | results_app/src/uk/co/awe/pmat/db/Rank.java:171-191 | `valueOf(name())` gives back every special or non-negative rank |
| Value.ClassOf | results_app/src/uk/co/awe/pmat/db/Value.java:102 | a value's class is `Void` exactly when it holds no value |
| Value.New | results_app/src/uk/co/awe/pmat/db/Value.java:90-103 | the constructor raises `NullPointerException` exactly for a null name or rank, and otherwise keeps every field as given |
| Value.Simple | results_app/src/uk/co/awe/pmat/db/Value.java:115-117 | the three-argument constructor is the full one with no error, error type or counts |
| Value.ValueOf | results_app/src/uk/co/awe/pmat/db/Value.java:37-47 | `valueOf(type, text)` gives an unnamed value of rank `UNKNOWN` whose class has the given simple name: a `String` always, an `Integer` or `Double` exactly when the text parses, and any other type name raises |
| Value.UpdateName | results_app/src/uk/co/awe/pmat/db/Value.java:126-128 | the copy has the new name and every other field of the original |
| Value.UpdateValue | results_app/src/uk/co/awe/pmat/db/Value.java:273-275 | the copy has the new value and every other field of the original |
| Value.UpdateValueAndError | results_app/src/uk/co/awe/pmat/db/Value.java:287-289 | the copy has the new double value and error and every other field of the original |
| Value.DoubleValue | results_app/src/uk/co/awe/pmat/db/Value.java:58-70 | a double value comes back as it is; an integer value and its error become doubles of the same number; a string or null value becomes a null value and error; nothing but value and error changes |
| Value.CompareDbl | results_app/src/uk/co/awe/pmat/db/Value.java:137 | `Double.compareTo` gives -1, 0 or 1, and 0 exactly for the same double |
| Value.CompareInt | results_app/src/uk/co/awe/pmat/db/Value.java:137 | `Integer.compareTo` gives -1, 0 or 1, and is negative exactly when the first is smaller |
| Value.CompareTo | results_app/src/uk/co/awe/pmat/db/Value.java:132-141 | values of different classes compare as -1; values of the same class compare as 0 exactly when they hold the same value |
| Value.CompareToSigns | results_app/src/uk/co/awe/pmat/db/Value.java:132-141 | within a class the comparison is antisymmetric in sign; across classes it is -1 both ways round, so it is not a total order |
| Value.EqualsIsIdentity | results_app/src/uk/co/awe/pmat/db/Value.java:212-249 | two values are equal exactly when every field is equal |
| MetaData.TypeTable | results_app/src/uk/co/awe/pmat/db/MetaData.java:55-67 | there are six metadata types, each listed once, and their display names, field names and constant names each tell them apart |
| MetaData.DisplayName | results_app/src/uk/co/awe/pmat/db/MetaData.java:92-94 | every type has a non-empty display name |
| MetaData.FieldName | results_app/src/uk/co/awe/pmat/db/MetaData.java:103-105 | every type has a non-empty field name |
| MetaData.Ordinal | results_app/src/uk/co/awe/pmat/db/MetaData.java:55-67 | each type has its place in declaration order |
| MetaData.ValueOf | results_app/src/uk/co/awe/pmat/db/MetaData.java:55-67 | `Type.valueOf` returns only the type whose constant name is the text |
| MetaData.ValueOfEnumName | results_app/src/uk/co/awe/pmat/db/MetaData.java:55-67 | `valueOf(name())` gives back every type |
| MetaData.CastText | results_app/src/uk/co/awe/pmat/db/Application.java:76 | `(String) fields.get(key)` is null for a missing key or null, the text for a string, and a `ClassCastException` for any other class |
| MetaData.CastInt | results_app/src/uk/co/awe/pmat/db/Application.java:77 | `(Integer) fields.get(key)` is null for a missing key or null, the number for an integer, and a `ClassCastException` for any other class |
| MetaData.CastFlag | results_app/src/uk/co/awe/pmat/db/Application.java:82 | `(Boolean) fields.get(key)` is null for a missing key or null, the flag for a boolean, and a `ClassCastException` for any other class |
| MetaData.GetFields | results_app/src/uk/co/awe/pmat/db/MetaData.java:113-130 | every type's field table starts with a string `name`, and every table but the application's continues with a string `vendor` |
| Application.GetData | results_app/src/uk/co/awe/pmat/db/Application.java:86-98 | `getData` answers exactly the seven field names and raises for any other |
| Application.GetDataTyped | results_app/src/uk/co/awe/pmat/db/Application.java:29-31 | every field `getData` returns has the class the field table declares |
| Application.GetDataMap | results_app/src/uk/co/awe/pmat/db/Application.java:101-111 | the data map has one entry per field of the table |
| Application.GetDataMapAgrees | results_app/src/uk/co/awe/pmat/db/Application.java:86-111 | the data map holds exactly the fields `getData` answers, with the same values |
| Application.DataMapEntries | results_app/src/uk/co/awe/pmat/db/Application.java:101-111 | each entry of the data map is the field of the same name |
| Application.ConformsCasts | results_app/src/uk/co/awe/pmat/db/Application.java:75-83 | the map constructor's seven casts all succeed exactly when every field present has its declared class |
| Application.FromMap | results_app/src/uk/co/awe/pmat/db/Application.java:75-83 | building from a map succeeds exactly when its fields have their declared classes |
| Application.FromMapReads | results_app/src/uk/co/awe/pmat/db/Application.java:75-98 | an application built from a map answers each field with the map's value |
| Application.FromDataMap | results_app/src/uk/co/awe/pmat/db/Application.java:75-111 | building from an application's own data map gives back that application |
| Application.Equals | results_app/src/uk/co/awe/pmat/db/Application.java:119-149 | two applications are equal exactly when every field is equal |
| Application.DisplayName | results_app/src/uk/co/awe/pmat/db/Application.java:165-168 | the display name starts with the name (or `null`) followed by ` v` and the version |
| Application.CompareTo | results_app/src/uk/co/awe/pmat/db/Application.java:171-173 | applications compare as 0 exactly when their display names are equal ignoring case |
| Application.CompareToAntisymmetric | results_app/src/uk/co/awe/pmat/db/Application.java:171-173 | swapping the applications negates the comparison |
| Application.CompareToIgnoresDescription | results_app/src/uk/co/awe/pmat/db/Application.java:119-173 | two applications differing only in description compare as 0 yet are not equal, so `compareTo` is inconsistent with `equals` |
| Machine.GetData | results_app/src/uk/co/awe/pmat/db/Machine.java:56-63 | `getData` answers exactly `name` and `vendor` |
| Machine.GetDataMap | results_app/src/uk/co/awe/pmat/db/Machine.java:66-71 | the data map has one entry per field |
| Machine.GetDataMapAgrees | results_app/src/uk/co/awe/pmat/db/Machine.java:56-71 | the data map holds exactly the fields `getData` answers, with the same values |
| Machine.FromMap | results_app/src/uk/co/awe/pmat/db/Machine.java:48-53 | building from a map succeeds exactly when its name and vendor are strings or absent |
| Machine.FromDataMap | results_app/src/uk/co/awe/pmat/db/Machine.java:48-71 | building from a machine's own data map gives back that machine |
| Machine.Equals | results_app/src/uk/co/awe/pmat/db/Machine.java:79-91 | machines are equal exactly when their names are equal; the vendor is ignored |
| Machine.HashCode | results_app/src/uk/co/awe/pmat/db/Machine.java:94-98 | the hash is a 32-bit value computed with wrap-around |
| Machine.EqualsHashCode | results_app/src/uk/co/awe/pmat/db/Machine.java:79-98 | equal machines hash alike |
| Machine.VendorIgnored | results_app/src/uk/co/awe/pmat/db/Machine.java:79-98 | changing the vendor changes neither equality nor the hash |
| Machine.CompareTo | results_app/src/uk/co/awe/pmat/db/Machine.java:101-108 | comparing machines raises `NullPointerException` when a name is null, and otherwise is 0 exactly when the names are equal ignoring case |
| Machine.CompareToAntisymmetric | results_app/src/uk/co/awe/pmat/db/Machine.java:101-108 | swapping named machines negates the comparison |
| Mpi.GetData | results_app/src/uk/co/awe/pmat/db/Mpi.java:71-81 | `getData` answers exactly the five field names |
| Mpi.GetDataTyped | results_app/src/uk/co/awe/pmat/db/Mpi.java:27-29 | every field `getData` returns has its declared class |
| Mpi.GetDataMap | results_app/src/uk/co/awe/pmat/db/Mpi.java:84-92 | the data map has one entry per field |
| Mpi.GetDataMapAgrees | results_app/src/uk/co/awe/pmat/db/Mpi.java:71-92 | the data map holds exactly the fields `getData` answers, with the same values |
| Mpi.ConformsCasts | results_app/src/uk/co/awe/pmat/db/Mpi.java:60-68 | the map constructor's five casts all succeed exactly when every field present has its declared class |
| Mpi.FromMap | results_app/src/uk/co/awe/pmat/db/Mpi.java:60-68 | building from a map succeeds exactly when its fields have their declared classes |
| Mpi.FromDataMap | results_app/src/uk/co/awe/pmat/db/Mpi.java:60-92 | building from an MPI's own data map gives back that MPI |
| Mpi.Equals | results_app/src/uk/co/awe/pmat/db/Mpi.java:100-124 | two MPIs are equal exactly when every field is equal |
| Mpi.DisplayName | results_app/src/uk/co/awe/pmat/db/Mpi.java:138-145 | the display name starts with the name (or `null`) |
| Mpi.CompareTo | results_app/src/uk/co/awe/pmat/db/Mpi.java:148-150 | MPIs compare as 0 exactly when their display names are equal ignoring case |
| Mpi.CompareToAntisymmetric | results_app/src/uk/co/awe/pmat/db/Mpi.java:148-150 | swapping the MPIs negates the comparison |
| Mpi.CompareToIgnoresVendor | results_app/src/uk/co/awe/pmat/db/Mpi.java:100-150 | two MPIs differing only in vendor compare as 0 yet are not equal |
| OperatingSystem.GetData | results_app/src/uk/co/awe/pmat/db/OperatingSystem.java:81-93 | `getData` answers exactly the seven field names |
| OperatingSystem.GetDataTyped | results_app/src/uk/co/awe/pmat/db/OperatingSystem.java:29-31 | every field `getData` returns has its declared class |
| OperatingSystem.GetDataMap | results_app/src/uk/co/awe/pmat/db/OperatingSystem.java:96-106 | the data map has one entry per field |
| OperatingSystem.GetDataMapAgrees | results_app/src/uk/co/awe/pmat/db/OperatingSystem.java:81-106 | the data map holds exactly the fields `getData` answers, with the same values |
| OperatingSystem.DataMapEntries | results_app/src/uk/co/awe/pmat/db/OperatingSystem.java:96-106 | each entry of the data map is the field of the same name |
| OperatingSystem.ConformsCasts | results_app/src/uk/co/awe/pmat/db/OperatingSystem.java:68-78 | the map constructor's seven casts all succeed exactly when every field present has its declared class |
| OperatingSystem.FromMap | results_app/src/uk/co/awe/pmat/db/OperatingSystem.java:68-78 | building from a map succeeds exactly when its fields have their declared classes |
| OperatingSystem.FromDataMap | results_app/src/uk/co/awe/pmat/db/OperatingSystem.java:68-106 | building from an operating system's own data map gives it back |
| OperatingSystem.Equals | results_app/src/uk/co/awe/pmat/db/OperatingSystem.java:114-144 | two operating systems are equal exactly when every field is equal |
| OperatingSystem.DisplayName | results_app/src/uk/co/awe/pmat/db/OperatingSystem.java:160-169 | the display name starts with the vendor and the name, each `null` when missing |
| OperatingSystem.CompareTo | results_app/src/uk/co/awe/pmat/db/OperatingSystem.java:172-174 | operating systems compare as 0 exactly when their display names are equal ignoring case |
| OperatingSystem.CompareToAntisymmetric | results_app/src/uk/co/awe/pmat/db/OperatingSystem.java:172-174 | swapping the operating systems negates the comparison |
| OperatingSystem.DisplayNameShifted | results_app/src/uk/co/awe/pmat/db/OperatingSystem.java:160-169 | a missing minor with a build present prints the same as that build moved into the minor |
| OperatingSystem.CompareToConflatesVersions | results_app/src/uk/co/awe/pmat/db/OperatingSystem.java:114-174 | such two operating systems compare as 0 yet are not equal |
| Processor.GetData | results_app/src/uk/co/awe/pmat/db/Processor.java:77-88 | `getData` answers exactly the six field names |
| Processor.GetDataTyped | results_app/src/uk/co/awe/pmat/db/Processor.java:28-30 | every field `getData` returns has its declared class |
| Processor.GetDataMap | results_app/src/uk/co/awe/pmat/db/Processor.java:91-100 | the data map has one entry per field |
| Processor.GetDataMapAgrees | results_app/src/uk/co/awe/pmat/db/Processor.java:77-100 | the data map holds exactly the fields `getData` answers, with the same values |
| Processor.DataMapEntries | results_app/src/uk/co/awe/pmat/db/Processor.java:91-100 | each entry of the data map is the field of the same name |
| Processor.ConformsCasts | results_app/src/uk/co/awe/pmat/db/Processor.java:65-74 | the map constructor's six casts all succeed exactly when every field present has its declared class |
| Processor.FromMap | results_app/src/uk/co/awe/pmat/db/Processor.java:65-74 | building from a map succeeds exactly when its fields have their declared classes |
| Processor.FromDataMap | results_app/src/uk/co/awe/pmat/db/Processor.java:65-100 | building from a processor's own data map gives it back |
| Processor.Equals | results_app/src/uk/co/awe/pmat/db/Processor.java:108-135 | two processors are equal exactly when every field is equal |
| Processor.DisplayName | results_app/src/uk/co/awe/pmat/db/Processor.java:150-157 | the display name starts with the vendor and the name, each `null` when missing |
| Processor.CompareTo | results_app/src/uk/co/awe/pmat/db/Processor.java:160-162 | processors compare as 0 exactly when their display names are equal ignoring case |
| Processor.CompareToAntisymmetric | results_app/src/uk/co/awe/pmat/db/Processor.java:160-162 | swapping the processors negates the comparison |
| Processor.CompareToIgnoresThreads | results_app/src/uk/co/awe/pmat/db/Processor.java:108-162 | two processors differing only in threads per core compare as 0 yet are not equal |
| RunData.AddParameter | results_app/src/uk/co/awe/pmat/db/RunData.java:59-61 | the parameter goes at the end of the list; the earlier parameters and the results are kept |
| RunData.AddResult | results_app/src/uk/co/awe/pmat/db/RunData.java:63-65 | the result goes at the end of the list; the earlier results and the parameters are kept |
| RunData.UpdateParameterName | results_app/src/uk/co/awe/pmat/db/RunData.java:75-77 | renaming the parameter at an index succeeds exactly for an index in range, renames that parameter alone and keeps the results |
| RunData.FirstNamed | results_app/src/uk/co/awe/pmat/db/RunData.java:86-93 | the search finds nothing exactly when no value has the name |
| RunData.FirstNamedIsFirst | results_app/src/uk/co/awe/pmat/db/RunData.java:86-93 | the value found is the first one with the name |
| RunData.GetParameter | results_app/src/uk/co/awe/pmat/db/RunData.java:86-93 | `getParameter` is null exactly when no parameter has the name, and otherwise is a parameter with that name |
| RunData.FirstNamedAppend | results_app/src/uk/co/awe/pmat/db/RunData.java:86-93 | appending a value changes the search only when nothing before had the name |
| RunData.GetParameterAfterAdd | results_app/src/uk/co/awe/pmat/db/RunData.java:59-93 | after adding a parameter, looking up a name gives the earlier match if there was one, else the new parameter if it has the name |
| DataGrid.Names | results_app/src/uk/co/awe/pmat/db/DataGrid.java:46-53 | each group's name is its text (`Double.toString` for a double), or `NULL` for a null group, in order |
| DataGrid.GetName | results_app/src/uk/co/awe/pmat/db/DataGrid.java:57-59 | the names joined by ` / `: empty for no groups, the one name for a single group |
| DataGrid.NullSeriesGroupName | results_app/src/uk/co/awe/pmat/db/DataGrid.java:57-59 | the series group of a grid without series has the empty name |
| DataGrid.CompareComponent | results_app/src/uk/co/awe/pmat/db/DataGrid.java:66-75 | comparing a `String`, `Integer` or `Double` group with a null one raises, and nothing else raises; equal groups compare as 0; groups that compare as 0 have the same name |
| DataGrid.DoubleGroupsByValue | results_app/src/uk/co/awe/pmat/db/DataGrid.java:68-72 | two `Double` groups compare by value whatever their text: the smaller number first, negative infinity before every number, positive infinity after |
| DataGrid.DoubleSeriesByValue | results_app/src/uk/co/awe/pmat/db/jdbc/JdbcDatabaseConnection.java:520-536 | the series groups of result values 9.0 and 10.0 compare as -1, for any `Double.toString` |
| DataGrid.DoubleAgainstNullFails | results_app/src/uk/co/awe/pmat/db/DataGrid.java:68-70 | a series group whose first `Double` component meets a null one fails to compare |
| DataGrid.CompareFrom | results_app/src/uk/co/awe/pmat/db/DataGrid.java:65-80 | a 0 from the loop means every later group's name agrees |
| DataGrid.FirstDifference | results_app/src/uk/co/awe/pmat/db/DataGrid.java:65-80 | a non-zero comparison is that of the first group that differs, every earlier one comparing as 0 |
| DataGrid.CompareFromReflexive | results_app/src/uk/co/awe/pmat/db/DataGrid.java:65-80 | a list of groups compares as 0 with itself |
| DataGrid.CompareTo | results_app/src/uk/co/awe/pmat/db/DataGrid.java:63-84 | two series groups of the same size that compare as 0 have the same names |
| DataGrid.CompareToReflexive | results_app/src/uk/co/awe/pmat/db/DataGrid.java:63-84 | every series group compares as 0 with itself |
| DataGrid.GetY | results_app/src/uk/co/awe/pmat/db/DataGrid.java:136-138 | a name the row does not hold has no y value |
| DataGrid.AddY | results_app/src/uk/co/awe/pmat/db/DataGrid.java:148-150 | adding a y value sets that name alone and keeps the x value and the series |
| DataGrid.AsTableRow | results_app/src/uk/co/awe/pmat/db/DataGrid.java:158-169 | a table row is the x value, then every y value, then each series group's name |
| DataGrid.GetColumnNames | results_app/src/uk/co/awe/pmat/db/DataGrid.java:264-276 | the columns are the x and y axis names, then the first row's group names; only the two axes for an empty grid |
| DataGrid.ColumnsMatchFirstRow | results_app/src/uk/co/awe/pmat/db/DataGrid.java:264-276 | for a grid with one y value the first row lines up with the column names |
| Analysis.New | results_app/src/uk/co/awe/pmat/db/Analysis.java:72-88 | an analysis cannot be made without a date, and otherwise keeps every field as given |
| Analysis.NotesTrimmed | results_app/src/uk/co/awe/pmat/db/Analysis.java:133-138 | notes up to the limit are shown as they are; longer notes are cut to the limit and get `...` |
| Analysis.NotesTrimmedBound | results_app/src/uk/co/awe/pmat/db/Analysis.java:133-138 | the shown notes are at most three characters over the limit and start as the notes do |
| Analysis.AsTableRow | results_app/src/uk/co/awe/pmat/db/Analysis.java:145-150 | the table row is the creator, the date and the trimmed notes |
| Analysis.EqualsHashCode | results_app/src/uk/co/awe/pmat/db/Analysis.java:158-185 | `equals` is an equivalence and equal analyses hash alike |
| Analysis.EqualsIgnoresContents | results_app/src/uk/co/awe/pmat/db/Analysis.java:158-176 | analyses with the same creator, date and notes are equal whatever their graphs, derived data, restrictions and renames |
| Analysis.CompareTo | results_app/src/uk/co/awe/pmat/db/Analysis.java:188-194 | comparing raises when a creator is null, and otherwise orders by creator then date, 0 exactly for the same creator and date |
| Analysis.CompareToAntisymmetric | results_app/src/uk/co/awe/pmat/db/Analysis.java:188-194 | swapping the analyses swaps the sign of the comparison |
| Run.MetaMap | results_app/src/uk/co/awe/pmat/db/Run.java:122-143 | the metadata map holds an entry for exactly the types given, each under its own type |
| Run.New | results_app/src/uk/co/awe/pmat/db/Run.java:122-143 | a run cannot be made without a run date, and starts with no data sets and no flags |
| Run.NewLoaded | results_app/src/uk/co/awe/pmat/db/Run.java:154-157 | a run read from a file has its flags, file, id and date, no metadata, no data sets and none of the database fields |
| Run.IsCompleteMeaning | results_app/src/uk/co/awe/pmat/db/Run.java:159-173 | a run is complete exactly when its insertion date, creator, id, file and all six metadata types are set |
| Run.Update | results_app/src/uk/co/awe/pmat/db/Run.java:183-189 | `update(creator, restricted, tag)` replaces those three fields and files every metadata record again under its own type; on a run whose records are already so filed it changes exactly those three fields |
| Run.UpdateFile | results_app/src/uk/co/awe/pmat/db/Run.java:191-197 | `update(file)` replaces the file and files every metadata record again under its own type; on a run whose records are already so filed it changes exactly the file |
| Run.Refile | results_app/src/uk/co/awe/pmat/db/Run.java:136-140 | the constructor fed with `metaMap.values()` holds a record for exactly the types some record has, each under its own type, taken from the latest slot in `EnumMap` order; a map already filed by type comes back unchanged |
| Run.MetaMapLastWins | results_app/src/uk/co/awe/pmat/db/Run.java:136-140 | for each type the constructor keeps the last non-null record of that type in the collection |
| Run.SetMetaDataKeepsFiled | results_app/src/uk/co/awe/pmat/db/Run.java:272-274 | on a run whose records are filed by type, `setMetaData` keeps them so exactly when it stores a null or a record of the named type |
| Run.UpdateMovesMisfiled | results_app/src/uk/co/awe/pmat/db/Run.java:183-189 | a record stored under another type moves to its own type on `update` and leaves the other type empty; it replaces the record already there unless that one's type comes later in `EnumMap` order |
| Run.SetMetaData | results_app/src/uk/co/awe/pmat/db/Run.java:272-274 | setting a type's metadata stores it under that type (a null removes it) and touches nothing else |
| Run.SetMetaDataCommutes | results_app/src/uk/co/awe/pmat/db/Run.java:272-274 | setting two different types can be done in either order |
| Run.AddDataSet | results_app/src/uk/co/awe/pmat/db/Run.java:244-246 | the data set goes at the end and nothing else changes |
| Run.AddAllDataSets | results_app/src/uk/co/awe/pmat/db/Run.java:293-295 | the data sets go at the end in order and nothing else changes |
| Run.GetColumnData | results_app/src/uk/co/awe/pmat/db/Run.java:212-236 | a metadata column shows that type's record or null, the flags column the flags joined by `, `, and only the eight field names are known columns |
| Run.AsTableRow | results_app/src/uk/co/awe/pmat/db/Run.java:204-210 | the table row is each table column's data in order |
| Run.ColumnsReadSetters | results_app/src/uk/co/awe/pmat/db/Run.java:183-236 | each column reads back what its setter stored, and setting one metadata type leaves the other metadata columns as they were |
| Run.TableRowDetermines | results_app/src/uk/co/awe/pmat/db/Run.java:67-77 | two runs show the same table row exactly when their run date, privacy flag and metadata of every type agree |
| Run.EqualsAsWrittenAsymmetric | results_app/src/uk/co/awe/pmat/db/Run.java:370-391 | as written, a run without an id equals the same run with an id but not the other way round |
| Run.EqualsAsWrittenHashMismatch | results_app/src/uk/co/awe/pmat/db/Run.java:370-403 | as written, such equal runs can hash differently |
| Run.EqualsEquivalence | results_app/src/uk/co/awe/pmat/db/Run.java:370-391 | the corrected `equals` is an equivalence, and agrees with the written one whenever the first run has an id or the second has none |
| Run.EqualsHashCode | results_app/src/uk/co/awe/pmat/db/Run.java:370-403 | under the corrected `equals`, equal runs hash alike |
| Run.CompareTo | results_app/src/uk/co/awe/pmat/db/Run.java:406-408 | comparing runs raises when an id is null, and otherwise is 0 exactly for equal ids |
| PmtmVersion.FirstNamed | results_app/src/uk/co/awe/pmat/datafiles/pmtm/PMTMVersion.java:75-79 | the loop over the constants stops at the first whose string equals the text ignoring case, or finds none when no later constant matches |
| PmtmVersion.GetFromStringIn | results_app/src/uk/co/awe/pmat/datafiles/pmtm/PMTMVersion.java:74-81 | `getFromString` gives the first constant whose string equals the text ignoring case, and raises exactly when no constant's does |
| PmtmVersion.GetFromString | results_app/src/uk/co/awe/pmat/datafiles/pmtm/PMTMVersion.java:74-81 | the same with the corrected 0.3.0 string |
| PmtmVersion.OrderLaws | results_app/src/uk/co/awe/pmat/datafiles/pmtm/PMTMVersion.java:96-111 | `isLaterThanOrEqualTo` is exactly the negation of `isEarlierThan`, which is a strict total order |
| PmtmVersion.HistoricalOrder | results_app/src/uk/co/awe/pmat/datafiles/pmtm/PMTMVersion.java:15-51 | the versions the loader's branches test (0.2.3, 0.2.7, 2.0.0, 2.2.0, 2.2.1, 2.3.0) carry those strings and come in release order |
| PmtmVersion.GetFromToString | results_app/src/uk/co/awe/pmat/datafiles/pmtm/PMTMVersion.java:74-86 | `getFromString(toString())` gives back every constant, in the declared table and in the corrected one |
| PmtmVersion.DistinctWrittenNames | results_app/src/uk/co/awe/pmat/datafiles/pmtm/PMTMVersion.java:15-51 | no two constants' declared strings are equal ignoring case |
| PmtmVersion.DistinctNames | results_app/src/uk/co/awe/pmat/datafiles/pmtm/PMTMVersion.java:15-51 | no two constants' corrected strings are equal ignoring case |
| PmtmVersion.FirstDifference | results_app/src/uk/co/awe/pmat/datafiles/pmtm/PMTMVersion.java:15-51 | two distinct constants with declared strings of one length differ at some position even ignoring case |
| PmtmVersion.NotZeroThreeZero | results_app/src/uk/co/awe/pmat/datafiles/pmtm/PMTMVersion.java:31 | no declared string is `0.3.0` ignoring case: the 0.3.0 constant is spelt with a letter O |
| PmtmVersion.ZeroThreeZeroRejected | results_app/src/uk/co/awe/pmat/datafiles/pmtm/PMTMVersion.java:31 | as declared, a file reporting version `0.3.0` is rejected as an unknown version |
| PmtmVersion.CapitalOAccepted | results_app/src/uk/co/awe/pmat/datafiles/pmtm/PMTMVersion.java:31 | as declared, only the text `O.3.0` names version 0.3.0 |
| PmtmVersion.ZeroThreeZeroAccepted | results_app/src/uk/co/awe/pmat/datafiles/pmtm/PMTMVersion.java:30-31 | with the string its comment gives, `0.3.0` names version 0.3.0 |
| PmtmVersion.TablesAgree | results_app/src/uk/co/awe/pmat/datafiles/pmtm/PMTMVersion.java:15-51 | the correction changes the string of 0.3.0 alone |
| PmtmVersion.TablesAgreeOn | results_app/src/uk/co/awe/pmat/datafiles/pmtm/PMTMVersion.java:74-81 | text that names 0.3.0 in neither table is looked up to the same result in both |
| PmtmFactory.CheckedParseDouble | results_app/src/uk/co/awe/pmat/datafiles/pmtm/PMTMFactory.java:98-100 | the parameter and overhead readers' check-then-parse gives a number only for text the float syntax admits, and then the number `Double.parseDouble` reads |
| PmtmFactory.ParseDoubleAsWritten | results_app/src/uk/co/awe/pmat/datafiles/pmtm/PMTMFactory.java:157-168 | the private `parseDouble` gives a number only for text the float syntax admits |
| PmtmFactory.PmtmDouble | results_app/src/uk/co/awe/pmat/datafiles/pmtm/PMTMFactory.java:57 | what the float syntax promises: every text it admits is a number, an optionally signed `INF` being the infinity of that sign and anything else its exact decimal value |
| PmtmFactory.PmtmDoubleFinite | results_app/src/uk/co/awe/pmat/datafiles/pmtm/PMTMFactory.java:157-168 | on decimal text the corrected, the checked and the written readings agree on the exact value |
| PmtmFactory.ParseDoubleAsWrittenAgrees | results_app/src/uk/co/awe/pmat/datafiles/pmtm/PMTMFactory.java:157-168 | the private `parseDouble` agrees with the intended reading on every text but `+INF` |
| PmtmFactory.PlusInfTrimmed | results_app/src/uk/co/awe/pmat/datafiles/pmtm/PMTMFactory.java:54 | `+INF` has no surrounding space for the delimiter to strip, so it reaches the number parser as it is |
| PmtmFactory.PlusInfRejected | results_app/src/uk/co/awe/pmat/datafiles/pmtm/PMTMFactory.java:157-168 | `+INF`, which the float syntax admits, is rejected by `parseDouble` as written, and is positive infinity as intended |
| PmtmFactory.SignedInfRejected | results_app/src/uk/co/awe/pmat/datafiles/pmtm/PMTMFactory.java:203-213 | the check-then-parse of the parameter and overhead readers rejects every signed or unsigned `INF` the syntax admits, which the corrected reader reads as an infinity |
| PmtmFactory.CheckedParseDoubleRejectsInf | results_app/src/uk/co/awe/pmat/datafiles/pmtm/PMTMFactory.java:203-213 | `INF` and `-INF` are rejected by the check-then-parse of the overhead and parameter lines and are the two infinities as intended |
| PmtmFactory.DoublesAgree | results_app/src/uk/co/awe/pmat/datafiles/pmtm/PMTMFactory.java:98-100 | on text that is not an optionally signed `INF`, the parameter and overhead reading, the timer reading and the corrected reading all give the same result |
| PmtmFactory.SignedInfText | results_app/src/uk/co/awe/pmat/datafiles/pmtm/PMTMFactory.java:95-100 | an optionally signed `INF` is its own trim, matches the float syntax but not the integer syntax, and `Double.parseDouble` rejects it |
| PmtmFactory.LongToken | results_app/src/uk/co/awe/pmat/datafiles/pmtm/PMTMFactory.java:170-175 | `parseLong` succeeds exactly on the text of a 64-bit integer, and gives its value |
| PmtmFactory.DivideByScale | results_app/src/uk/co/awe/pmat/datafiles/pmtm/PMTMFactory.java:214-216 | dividing the old overhead error by 10000 keeps infinities and divides a finite error exactly |
| PmtmFactory.GetRank | results_app/src/uk/co/awe/pmat/datafiles/pmtm/PMTMFactory.java:235-264 | from version 2.0.0 a rank is read by `Rank.fromString`; before it `all`, `average of all`, `max of all` and `min of all` are the aggregate ranks and any other text goes to `Rank.valueOf` |
| PmtmFactory.SpecialNamesNotNumeric | results_app/src/uk/co/awe/pmat/datafiles/pmtm/PMTMFactory.java:235-264 | no special rank's display or constant name reads as an integer |
| PmtmFactory.GetRankNumeric | results_app/src/uk/co/awe/pmat/datafiles/pmtm/PMTMFactory.java:235-264 | a rank given as a number reads as that numbered rank in every version |
| PmtmFactory.ParameterValue | results_app/src/uk/co/awe/pmat/datafiles/pmtm/PMTMFactory.java:95-103 | a parameter's text is an `Integer` when it matches the integer syntax (failing when it does not fit); a `Double` when it matches the float syntax, which as written fails exactly on an optionally signed `INF` and as intended never fails; and otherwise the text itself |
| PmtmFactory.ParameterInfRejected | results_app/src/uk/co/awe/pmat/datafiles/pmtm/PMTMFactory.java:98-100 | as written a parameter value of `INF` or `-INF` fails; as intended it is the infinity of that sign |
| PmtmFactory.ParameterValueAgrees | results_app/src/uk/co/awe/pmat/datafiles/pmtm/PMTMFactory.java:95-103 | on text that is not an optionally signed `INF` the written and the corrected parameter readings agree |
| PmtmFactory.ParameterValueInt | results_app/src/uk/co/awe/pmat/datafiles/pmtm/PMTMFactory.java:95-97 | every `int` written in decimal reads back as that `Integer`, with either double reader |
| PmtmFactory.GetParameter | results_app/src/uk/co/awe/pmat/datafiles/pmtm/PMTMFactory.java:81-106 | a parameter line must have seven tokens; it fails exactly when the length, the rank or the value fails; the parameter's rank, name and value are tokens 2, 4 and 6, with no error or counts; `asWritten` selects the source's value reader |
| PmtmFactory.GetParameterAgrees | results_app/src/uk/co/awe/pmat/datafiles/pmtm/PMTMFactory.java:81-106 | a parameter line without an `INF` token reads the same with the source's and the corrected value reader |
| PmtmFactory.GetResult | results_app/src/uk/co/awe/pmat/datafiles/pmtm/PMTMFactory.java:120-155 | a timer line must have 14 tokens from version 0.2.3 and 12 before, and then reads as the timer of its tokens, with the source's private `parseDouble` when `asWritten` holds |
| PmtmFactory.GetResultAgrees | results_app/src/uk/co/awe/pmat/datafiles/pmtm/PMTMFactory.java:120-168 | a timer line without an `INF` token reads the same with the source's and the corrected double reader |
| PmtmFactory.TimerValue | results_app/src/uk/co/awe/pmat/datafiles/pmtm/PMTMFactory.java:132-168 | a timer reads exactly when its rank, value, error, count and (from 0.2.3) pause count all read; its rank, name, value, error and count are tokens 2, 4, 6, 8 and 11, its error type is `PMTM_STANDARD`, and its pause count is token 13 from 0.2.3 and 0 before |
| PmtmFactory.GetOverhead | results_app/src/uk/co/awe/pmat/datafiles/pmtm/PMTMFactory.java:189-222 | an overhead line reads exactly when it has ten tokens and its value and error read by `Double.parseDouble` after the float check (or by the corrected reader); the overhead is named by the prefix and token 4, is over all ranks with count 10000 and no pauses, and before 0.2.6 its error is divided by 10000 |
| PmtmFactory.GetOverheadAgrees | results_app/src/uk/co/awe/pmat/datafiles/pmtm/PMTMFactory.java:189-222 | an overhead line without an `INF` token reads the same with the source's and the corrected double reader |
| PmtmFactory.GetVersion | results_app/src/uk/co/awe/pmat/datafiles/pmtm/PMTMFactory.java:601-619 | a version line must have three tokens starting with `PMTM Version`, and the third, trimmed, must name a known version in the declared table (`asWritten`) or the corrected one |
| PmtmFactory.GetVersionAgrees | results_app/src/uk/co/awe/pmat/datafiles/pmtm/PMTMFactory.java:601-619 | a version line none of whose tokens names 0.3.0 in either spelling reads the same with both tables |
| PmtmFactory.VersionPart | results_app/src/uk/co/awe/pmat/datafiles/pmtm/PMTMFactory.java:436-448 | a null version string is 0; otherwise part `idx` after splitting on `.` and `-` must read as an integer once trimmed, and a missing part is 0 |
| PmtmFactory.IntDigitsParse | results_app/src/uk/co/awe/pmat/datafiles/pmtm/PMTMFactory.java:436-448 | plain digits that fit an `int` need no trimming, contain no separator, and read as their value |
| PmtmFactory.VersionPartOfJoin | results_app/src/uk/co/awe/pmat/datafiles/pmtm/PMTMFactory.java:436-448 | for a version written as numbers joined by dots, each part reads as its number and a part beyond the last as 0 |
| PmtmFactory.LeadingDigits | results_app/src/uk/co/awe/pmat/datafiles/pmtm/PMTMFactory.java:404-405 | `[0-9]+` takes the longest run of leading digits |
| PmtmFactory.LeadingDigitsConcat | results_app/src/uk/co/awe/pmat/datafiles/pmtm/PMTMFactory.java:404-405 | the leading run of digits in front of a non-digit is exactly those digits |
| PmtmFactory.MatchClock | results_app/src/uk/co/awe/pmat/datafiles/pmtm/PMTMFactory.java:404-406 | a match of the clock pattern gives well-formed groups that spell the text back |
| PmtmFactory.MatchClockRender | results_app/src/uk/co/awe/pmat/datafiles/pmtm/PMTMFactory.java:404-406 | the pattern matches any rendering of well-formed groups, and in only one way |
| PmtmFactory.GhzToMhz | results_app/src/uk/co/awe/pmat/datafiles/pmtm/PMTMFactory.java:414-415 | the GHz reading times 1000, cast to `int`, lies between 0 and the largest `int` |
| PmtmFactory.ClockTextAsWritten | results_app/src/uk/co/awe/pmat/datafiles/pmtm/PMTMFactory.java:406-421 | as written, text that does not match the clock pattern gives a null clock speed |
| PmtmFactory.ClockText | results_app/src/uk/co/awe/pmat/datafiles/pmtm/PMTMFactory.java:406-421 | as intended, a GHz reading is scaled to MHz, a plain or MHz reading is its whole part, and text that does not match is null |
| PmtmFactory.ClockTextAgrees | results_app/src/uk/co/awe/pmat/datafiles/pmtm/PMTMFactory.java:406-421 | the written and intended readings agree except on a whole number of GHz |
| PmtmFactory.WholeGhzUnscaled | results_app/src/uk/co/awe/pmat/datafiles/pmtm/PMTMFactory.java:408-409 | as written, `3GHz` reads as 3 where 3000 MHz is meant |
| PmtmFactory.WholeGhzValue | results_app/src/uk/co/awe/pmat/datafiles/pmtm/PMTMFactory.java:414-415 | a whole number of GHz is that number times 1000 MHz |
| PmtmFactory.DecimalGhzExample | results_app/test/uk/co/awe/pmat/datafiles/pmtm/ReadProcessorLineTest.java:61-66 | `2.8GHz` is 2800 MHz, the value the decimal-GHz processor test expects |
| PmtmFactory.ClockSpeedAsWritten | results_app/src/uk/co/awe/pmat/datafiles/pmtm/PMTMFactory.java:400-403 | as written, an index beyond the tokens gives null, but an index equal to their number reads past the end |
| PmtmFactory.ClockSpeed | results_app/src/uk/co/awe/pmat/datafiles/pmtm/PMTMFactory.java:400-423 | as intended, a missing token gives null and a present one is read as clock text |
| PmtmFactory.ClockSpeedAgrees | results_app/src/uk/co/awe/pmat/datafiles/pmtm/PMTMFactory.java:400-423 | when the line is not exactly `index` tokens long and the token is not a whole number of GHz, the written and intended clock speeds agree |
| PmtmFactory.ClockSpeedAtLength | results_app/src/uk/co/awe/pmat/datafiles/pmtm/PMTMFactory.java:400-403 | a processor line with exactly five tokens fails as written and has a null clock speed as intended |
| PmtmLoad.FieldOf | results_app/src/uk/co/awe/pmat/datafiles/pmtm/PMTMFactory.java:322-323 | the `OS` and `System` tags name the same field, the operating system |
| PmtmLoad.StringToken | results_app/src/uk/co/awe/pmat/datafiles/pmtm/PMTMFactory.java:386-388 | a token is read only when the line has that many tokens, and is then that token as it stands |
| PmtmLoad.IntegerToken | results_app/src/uk/co/awe/pmat/datafiles/pmtm/PMTMFactory.java:390-392 | a missing integer token is null, and a present one must be an integer or the line fails, its value being the integer the token spells |
| PmtmLoad.VersionPartToken | results_app/src/uk/co/awe/pmat/datafiles/pmtm/PMTMFactory.java:394-398 | a missing version token reads as version part 0 |
| PmtmLoad.ReadOs | results_app/src/uk/co/awe/pmat/datafiles/pmtm/PMTMFactory.java:324-334 | the operating system is read exactly when all four version parts read, with name, vendor and kernel from tokens 3, 2 and 5 and the parts of token 4 in order |
| PmtmLoad.ReadVersion3 | results_app/src/uk/co/awe/pmat/datafiles/pmtm/PMTMFactory.java:340-342 | three version parts are read exactly when each of the first three parts of token 4 reads |
| PmtmLoad.ReadCompiler | results_app/src/uk/co/awe/pmat/datafiles/pmtm/PMTMFactory.java:337-345 | the compiler is read exactly when its three version parts read, with name from token 3 and vendor from token 2 |
| PmtmLoad.ReadMpi | results_app/src/uk/co/awe/pmat/datafiles/pmtm/PMTMFactory.java:348-356 | the MPI library is read exactly when its three version parts read, with name from token 3 and vendor from token 2 |
| PmtmLoad.ReadMachine | results_app/src/uk/co/awe/pmat/datafiles/pmtm/PMTMFactory.java:358-367 | before version 2.2.0 the machine is token 2 with no vendor; from 2.2.0 on it is named by token 3 and its vendor is token 2 |
| PmtmLoad.ReadProcessor | results_app/src/uk/co/awe/pmat/datafiles/pmtm/PMTMFactory.java:371-378 | the processor is read exactly when its core count, thread count and clock speed all read (the clock speed as written or as intended), with name, vendor and architecture from tokens 3, 2 and 4 |
| PmtmLoad.ReadProcessorAgrees | results_app/src/uk/co/awe/pmat/datafiles/pmtm/PMTMFactory.java:371-378 | when the clock-speed token is ordinary the processor reads the same either way |
| PmtmLoad.ProcessMetaData | results_app/src/uk/co/awe/pmat/datafiles/pmtm/PMTMFactory.java:297-383 | a metadata line succeeds only when its tag is a known field, and then sets that field as the field reader says, with the source's readers when `asWritten` holds |
| PmtmLoad.ProcessMetaDataAgrees | results_app/src/uk/co/awe/pmat/datafiles/pmtm/PMTMFactory.java:297-383 | an ordinary metadata line is stored the same with the source's and the corrected readers |
| PmtmLoad.SetField | results_app/src/uk/co/awe/pmat/datafiles/pmtm/PMTMFactory.java:303-380 | each field sets only itself; text fields always succeed; NProcs fails on a bad integer; a record that fails to read leaves the old one; the machine needs the version; the processor is skipped for versions 2.3.0 and 2.2.1 and is otherwise read with the chosen clock-speed reader |
| PmtmLoad.SetFieldAgrees | results_app/src/uk/co/awe/pmat/datafiles/pmtm/PMTMFactory.java:303-380 | only the processor field depends on the choice of readers, and only through the processor reader |
| PmtmLoad.FieldOfProcessor | results_app/src/uk/co/awe/pmat/datafiles/pmtm/PMTMFactory.java:368 | only the `Processor` tag sets the processor |
| PmtmLoad.OsVersionOfJoin | results_app/src/uk/co/awe/pmat/datafiles/pmtm/PMTMFactory.java:436-448 | a dotted version of integer parts reads back those parts in order, and missing parts read as 0 |
| PmtmLoad.CompilerWithoutVersion | results_app/src/uk/co/awe/pmat/datafiles/pmtm/PMTMFactory.java:436-440 | a compiler line with no version token still reads, with version 0.0.0 |
| PmtmLoad.Version3OfJoin | results_app/src/uk/co/awe/pmat/datafiles/pmtm/PMTMFactory.java:336-356 | a compiler or MPI version written as dotted integers reads back those integers in order, missing parts as 0 |
| PmtmLoad.SharedLayout | results_app/src/uk/co/awe/pmat/datafiles/pmtm/PMTMFactory.java:322-356 | the same tokens read as an MPI exactly when they read as a compiler, to the same fields, and an operating system line that reads agrees with the compiler reading on vendor and first three version parts |
| PmtmLoad.MachineLineRoundTrip | results_app/src/uk/co/awe/pmat/datafiles/pmtm/PMTMFactory.java:357-366 | a machine written in its version's layout reads back, without a vendor before 2.2.0, and every version uses exactly one layout |
| PmtmLoad.KindOf | results_app/src/uk/co/awe/pmat/datafiles/pmtm/PMTMFactory.java:490-543 | the first token decides the kind of line: the version tag, a metadata tag, `#Type`, `End of File` and so on |
| PmtmLoad.Classify | results_app/src/uk/co/awe/pmat/datafiles/pmtm/PMTMFactory.java:483-488 | a blank line is ignored, and any other line is classified by its first comma-separated token |
| PmtmLoad.Step | results_app/src/uk/co/awe/pmat/datafiles/pmtm/PMTMFactory.java:483-543 | a blank line changes nothing and a line without a first token fails; no line changes the version except a version line or the end flag except an end marker; one line adds at most one parameter; `asWritten` selects the source's readers |
| PmtmLoad.StepKind | results_app/src/uk/co/awe/pmat/datafiles/pmtm/PMTMFactory.java:490-543 | a metadata line outside the header fails, an overhead line inside the header or after the end fails, an unknown tag fails, `#Type` closes the header and `End of File` sets the end flag, with the source's readers when `asWritten` holds |
| PmtmLoad.StepMeta | results_app/src/uk/co/awe/pmat/datafiles/pmtm/PMTMFactory.java:506-513 | a metadata line in the header is processed into the metadata by the chosen readers and closes the header only when it is the Time line of a file older than version 0.2 |
| PmtmLoad.StepData | results_app/src/uk/co/awe/pmat/datafiles/pmtm/PMTMFactory.java:518-529 | a data line needs a version and appends exactly the parameter, result or overhead the chosen reader gives |
| PmtmLoad.StepDataAgrees | results_app/src/uk/co/awe/pmat/datafiles/pmtm/PMTMFactory.java:518-529 | an ordinary data line is read the same with the source's and the corrected readers |
| PmtmLoad.StepAgrees | results_app/src/uk/co/awe/pmat/datafiles/pmtm/PMTMFactory.java:483-543 | on an ordinary line (no `INF` token, no 0.3.0 version, a processor clock speed that is present and not whole GHz) one pass of the loop is the same with the source's and the corrected readers |
| PmtmLoad.StepKindAgrees | results_app/src/uk/co/awe/pmat/datafiles/pmtm/PMTMFactory.java:490-543 | the switch on the first token gives the same on an ordinary line with either choice of readers |
| PmtmLoad.ProcessAgrees | results_app/src/uk/co/awe/pmat/datafiles/pmtm/PMTMFactory.java:482-545 | the whole loop over ordinary lines gives the same with the source's and the corrected readers |
| PmtmLoad.TimeClosesEarlyHeader | results_app/src/uk/co/awe/pmat/datafiles/pmtm/PMTMFactory.java:510-513 | in a file older than version 0.2 the Time line ends the header |
| PmtmLoad.TimerLineAppends | results_app/src/uk/co/awe/pmat/datafiles/pmtm/PMTMFactory.java:527-528 | a timer line succeeds exactly when its result reads, and then appends that result |
| PmtmLoad.ProcessGrows | results_app/src/uk/co/awe/pmat/datafiles/pmtm/PMTMFactory.java:519-529 | the loop only ever appends: the parameters and results read so far are kept, with at most one parameter per line |
| PmtmLoad.ProcessAppend | results_app/src/uk/co/awe/pmat/datafiles/pmtm/PMTMFactory.java:482-544 | reading two blocks of lines is reading the first and then the second from where it stopped, and a failure stops the file |
| PmtmLoad.BlankLineIgnored | results_app/src/uk/co/awe/pmat/datafiles/pmtm/PMTMFactory.java:483-486 | a blank line anywhere may be removed without changing the outcome |
| PmtmLoad.MetaAfterTypeFails | results_app/src/uk/co/awe/pmat/datafiles/pmtm/PMTMFactory.java:506-508 | once the header is closed, a metadata line makes the file fail |
| PmtmLoad.VersionFromVersionLine | results_app/src/uk/co/awe/pmat/datafiles/pmtm/PMTMFactory.java:491-492 | the version is set only by a version line |
| PmtmLoad.EndFromEndLine | results_app/src/uk/co/awe/pmat/datafiles/pmtm/PMTMFactory.java:530-531 | the end flag is set only by an end marker |
| PmtmLoad.RunDate | results_app/src/uk/co/awe/pmat/datafiles/pmtm/PMTMFactory.java:556-562 | the run date is the parse of the trimmed date and time, and time 0 when either is missing or does not parse |
| PmtmLoad.AllParameters | results_app/src/uk/co/awe/pmat/datafiles/pmtm/PMTMFactory.java:564-566 | a process count becomes one extra `PE Count` parameter of unknown rank after the others |
| PmtmLoad.Finish | results_app/src/uk/co/awe/pmat/datafiles/pmtm/PMTMFactory.java:547-589 | the file fails without a version, or from version 0.2.7 on without an end marker; otherwise the run carries the run id or the checksum, the date, the path, the flags and the records read |
| PmtmLoad.LoadFile | results_app/src/uk/co/awe/pmat/datafiles/pmtm/PMTMFactory.java:462-589 | a file loads only when its first line is the PMTM header, and then the rest is read line by line, with the source's readers when `asWritten` holds, and finished |
| PmtmLoad.LoadFileAgrees | results_app/src/uk/co/awe/pmat/datafiles/pmtm/PMTMFactory.java:462-589 | a file whose lines after the header are all ordinary loads the same with the source's and the corrected readers, so the corrections change only files with the listed findings' inputs |
| PmtmLoad.LoadFileNeedsVersion | results_app/src/uk/co/awe/pmat/datafiles/pmtm/PMTMFactory.java:547-549 | a file without a version line never loads |
| PmtmLoad.LoadFileNeedsEndMarker | results_app/src/uk/co/awe/pmat/datafiles/pmtm/PMTMFactory.java:551-554 | a file without an end marker loads only when it is older than version 0.2.7 |
| PmtmLoad.LoadFilePeCount | results_app/src/uk/co/awe/pmat/datafiles/pmtm/PMTMFactory.java:564-587 | a loaded file has one data set, which has an extra parameter exactly when the header gave a process count |
| PmtmFileChecker.CheckHeader | results_app/src/uk/co/awe/pmat/datafiles/pmtm/PMTMFileChecker.java:24-43 | an empty file is an error; otherwise the file is accepted exactly when its first line is the PMTM header, character for character |
| PmtmFileChecker.OnlyFirstLine | results_app/src/uk/co/awe/pmat/datafiles/pmtm/PMTMFileChecker.java:27-41 | only the first line is looked at: files with the same first line get the same answer |
| PmtmFileChecker.PaddedHeaderRefused | results_app/src/uk/co/awe/pmat/datafiles/pmtm/PMTMFileChecker.java:34-40 | a header with a leading space is refused by the checker although the loader, which trims, would accept it |
| PmtmFileChecker.AcceptedPassesLoader | results_app/src/uk/co/awe/pmat/datafiles/pmtm/PMTMFileChecker.java:34-35 | every file the checker accepts passes the loader's trimmed header test |
| HpccFileChecker.Hashes | results_app/src/uk/co/awe/pmat/datafiles/hpcc/HPCCFileChecker.java:21 | the divider line is a run of `#` characters of the declared length |
| HpccFileChecker.CheckHeader | results_app/src/uk/co/awe/pmat/datafiles/hpcc/HPCCFileChecker.java:24-53 | a file with no token is an error; a first line other than the divider is refused; after the divider a missing second line is an error, and the file is accepted exactly when the second line starts with the HPC Challenge banner |
| HpccFileChecker.AcceptedIff | results_app/src/uk/co/awe/pmat/datafiles/hpcc/HPCCFileChecker.java:35-39 | a file is accepted exactly when it has the divider followed by a line starting with the banner |
| HpccFileChecker.OnlyTwoLines | results_app/src/uk/co/awe/pmat/datafiles/hpcc/HPCCFileChecker.java:35-38 | only the first two lines are looked at |
| HpccFileChecker.BlankFileRefused | results_app/src/uk/co/awe/pmat/datafiles/hpcc/HPCCFileChecker.java:32-33 | a file of blank lines has no token and is an error |
| HpccFactory.LastEquals | results_app/src/uk/co/awe/pmat/datafiles/hpcc/HPCCFactory.java:51 | the greedy key group ends at the last `=` that leaves a non-empty value |
| HpccFactory.MatchLineShape | results_app/src/uk/co/awe/pmat/datafiles/hpcc/HPCCFactory.java:51 | a summary line that matches splits into a non-empty key and a non-empty value around one `=`, with no white space anywhere and no `=` in the value before its last character |
| HpccFactory.MatchLineIff | results_app/src/uk/co/awe/pmat/datafiles/hpcc/HPCCFactory.java:51 | a line matches exactly when it has no white space and an `=` with text on both sides |
| HpccFactory.MatchLineJoin | results_app/src/uk/co/awe/pmat/datafiles/hpcc/HPCCFactory.java:51 | a key and a value without white space, joined by `=`, match back to that key and value |
| HpccFactory.IndexOf | results_app/src/uk/co/awe/pmat/datafiles/hpcc/HPCCFactory.java:255-264 | the first line equal to the target at or after the start, or none |
| HpccFactory.SkipToSummary | results_app/src/uk/co/awe/pmat/datafiles/hpcc/HPCCFactory.java:255-264 | skipping succeeds exactly when the file has the summary start line, and stops just after its first occurrence |
| HpccFactory.EndSummaryNotEntry | results_app/src/uk/co/awe/pmat/datafiles/hpcc/HPCCFactory.java:48-51 | the summary end line is never read as a key and value |
| HpccFactory.ReadSummary | results_app/src/uk/co/awe/pmat/datafiles/hpcc/HPCCFactory.java:278-303 | reading stops just after the end line, and every line before it is a key and value |
| HpccFactory.ReadSummaryMap | results_app/src/uk/co/awe/pmat/datafiles/hpcc/HPCCFactory.java:288-295 | the summary map is the lines' keys and values put in order into the map |
| HpccFactory.ReadSummaryCons | results_app/src/uk/co/awe/pmat/datafiles/hpcc/HPCCFactory.java:288-296 | a summary is its first entry followed by the rest |
| HpccFactory.ReadSummarySucceeds | results_app/src/uk/co/awe/pmat/datafiles/hpcc/HPCCFactory.java:282-302 | a block of key-value lines followed by the end line is read up to just past the end line |
| HpccFactory.ReadSummaryNeedsEnd | results_app/src/uk/co/awe/pmat/datafiles/hpcc/HPCCFactory.java:297-300 | without the end line the summary fails |
| HpccFactory.PutAllUntouched | results_app/src/uk/co/awe/pmat/datafiles/hpcc/HPCCFactory.java:294 | a key no line mentions keeps its earlier value or stays absent |
| HpccFactory.PutAllLastWins | results_app/src/uk/co/awe/pmat/datafiles/hpcc/HPCCFactory.java:294 | a key mentioned several times holds its last value |
| HpccFactory.DigitRun | results_app/src/uk/co/awe/pmat/datafiles/hpcc/HPCCFactory.java:49-50 | the run of digits at the start of the text, ending before the first non-digit |
| HpccFactory.MatchDate | results_app/src/uk/co/awe/pmat/datafiles/hpcc/HPCCFactory.java:49-50 | a date line that matches starts with `Current time (` and ends with the captured date text |
| HpccFactory.MatchDateJoin | results_app/src/uk/co/awe/pmat/datafiles/hpcc/HPCCFactory.java:49-50 | the prefix, a number, `) is ` and a date text match back to that date text |
| HpccFactory.DigitRunOf | results_app/src/uk/co/awe/pmat/datafiles/hpcc/HPCCFactory.java:49-50 | the digit run of digits followed by a non-digit is exactly those digits |
| HpccFactory.GetDate | results_app/src/uk/co/awe/pmat/datafiles/hpcc/HPCCFactory.java:315-340 | the date needs the divider, the end-of-challenge line and a matching date line that parses, and is that parse |
| HpccFactory.GetDateLocal | results_app/src/uk/co/awe/pmat/datafiles/hpcc/HPCCFactory.java:315-340 | the date depends only on the three lines after the summary |
| HpccFactory.GetApplicationName | results_app/src/uk/co/awe/pmat/datafiles/hpcc/HPCCFactory.java:215-245 | the name needs all four version entries and is `HPCC v` major.minor.micro, a space and the release |
| HpccFactory.ApplicationNameExample | results_app/test/uk/co/awe/pmat/datafiles/hpcc/HpccFileLoadTest.java:53 | version 1.4.1 release f gives `HPCC v1.4.1 f`, the name the HPCC load test expects |
| HpccFactory.ParamDatum | results_app/src/uk/co/awe/pmat/datafiles/hpcc/HPCCFactory.java:130-137 | a parameter is an integer when its text parses as one and the text itself otherwise |
| HpccFactory.GetParameters | results_app/src/uk/co/awe/pmat/datafiles/hpcc/HPCCFactory.java:120-141 | the parameters need every listed name in the summary, and are one unknown-rank value per name in the listed order |
| HpccFactory.GetResults | results_app/src/uk/co/awe/pmat/datafiles/hpcc/HPCCFactory.java:152-179 | the results need every listed name present with text the number reader accepts, and are one result per name in the listed order |
| HpccFactory.Summary | results_app/src/uk/co/awe/pmat/datafiles/hpcc/HPCCFactory.java:81-82 | the summary is read from just after its start line |
| HpccFactory.Assemble | results_app/src/uk/co/awe/pmat/datafiles/hpcc/HPCCFactory.java:85-108 | the run is built exactly when name, parameters and results read, with the checksum as id, the path, the date, no flags, version 1.4.1 and one data set |
| HpccFactory.LoadFile | results_app/src/uk/co/awe/pmat/datafiles/hpcc/HPCCFactory.java:76-109 | a file loads only when the summary and then the date read, and is assembled from them |
| HpccFactory.ParametersLocal | results_app/src/uk/co/awe/pmat/datafiles/hpcc/HPCCFactory.java:120-141 | summaries that agree on the listed keys give the same parameters or the same error |
| HpccFactory.ResultsLocal | results_app/src/uk/co/awe/pmat/datafiles/hpcc/HPCCFactory.java:152-179 | summaries that agree on the listed keys give the same results or the same error |
| HpccFactory.ParametersFirstMissing | results_app/src/uk/co/awe/pmat/datafiles/hpcc/HPCCFactory.java:127-130 | a failed parameter read reports the first listed key missing from the summary |
| HpccFactory.LoadedDataSet | results_app/src/uk/co/awe/pmat/datafiles/hpcc/HPCCFactory.java:76-109 | a loaded file holds exactly one data set, of the parameters and results read from its summary under the listed keys |
| SkampiVersion.Ordinal | results_app/src/uk/co/awe/pmat/datafiles/skampi/SkampiVersion.java:11-14 | each version has its place in the declared, historical order |
| SkampiVersion.ToString | results_app/src/uk/co/awe/pmat/datafiles/skampi/SkampiVersion.java:46-49 | every version prints as a non-empty version text |
| SkampiVersion.GetFromString | results_app/src/uk/co/awe/pmat/datafiles/skampi/SkampiVersion.java:37-44 | a text is accepted exactly when some version's text equals it ignoring case, and the version found is one such |
| SkampiVersion.GetFromToString | results_app/src/uk/co/awe/pmat/datafiles/skampi/SkampiVersion.java:37-44 | every version is found again from its own text, in any case |
| SkampiVersion.IsEarlierOrder | results_app/src/uk/co/awe/pmat/datafiles/skampi/SkampiVersion.java:60-62 | being earlier is a strict total order on versions |
| SkampiFactory.ResultTokens | results_app/src/uk/co/awe/pmat/datafiles/skampi/SkampiFactory.java:93 | a results line is cut at runs of white space and `=`, so no token contains either |
| SkampiFactory.ParamValue | results_app/src/uk/co/awe/pmat/datafiles/skampi/SkampiFactory.java:101-110 | the parameter value is an integer when its text is integer-shaped (failing when it does not fit), otherwise a double when it is float-shaped, otherwise the text |
| SkampiFactory.Columns | results_app/src/uk/co/awe/pmat/datafiles/skampi/SkampiFactory.java:127-136 | one timing column result per token after the sixth |
| SkampiFactory.Parameters | results_app/src/uk/co/awe/pmat/datafiles/skampi/SkampiFactory.java:99-110 | the data set has exactly two parameters: the result set name for all ranks, and the named parameter of unknown rank |
| SkampiFactory.Measurement | results_app/src/uk/co/awe/pmat/datafiles/skampi/SkampiFactory.java:99-138 | a measurement reads exactly when the parameter value, the time, the error, the count and every extra column have the right shapes, and is the main time result followed by the columns |
| SkampiFactory.ProcessResult | results_app/src/uk/co/awe/pmat/datafiles/skampi/SkampiFactory.java:85-97 | a results line outside a named set or with fewer than seven tokens fails |
| SkampiFactory.MeasurementColumn | results_app/src/uk/co/awe/pmat/datafiles/skampi/SkampiFactory.java:128-134 | the k-th extra result is the time column numbered k read from token k+5 |
| SkampiFactory.ProcessResultOfJoin | results_app/src/uk/co/awe/pmat/datafiles/skampi/SkampiFactory.java:85-97 | a results line written as its tokens separated by single spaces reads back as the measurement of those tokens |
| SkampiFactory.MeasurementNames | results_app/src/uk/co/awe/pmat/datafiles/skampi/SkampiFactory.java:111-136 | a measurement's first result is `Time` with the line's call count, and the k-th after it is `Time column k` |
| SkampiFactory.Comment | results_app/src/uk/co/awe/pmat/datafiles/skampi/SkampiFactory.java:220-257 | a comment line sets the version, the date or the result set exactly when it has that line's shape, fails when the version, the date or the quoted name does not read, and is otherwise ignored |
| SkampiFactory.CommentFormsExclusive | results_app/src/uk/co/awe/pmat/datafiles/skampi/SkampiFactory.java:220-257 | at most one of the version, date, begin and end forms applies to a comment line |
| SkampiFactory.CommentKeeps | results_app/src/uk/co/awe/pmat/datafiles/skampi/SkampiFactory.java:220-257 | a comment line keeps the measurements read so far and changes only the field its own form names |
| SkampiFactory.BeginEndRoundTrip | results_app/src/uk/co/awe/pmat/datafiles/skampi/SkampiFactory.java:244-256 | a set opened with a quoted name is named by the text between the quotes, and the end line closes it, restoring every other field |
| SkampiFactory.Step | results_app/src/uk/co/awe/pmat/datafiles/skampi/SkampiFactory.java:217-265 | comment lines are read as such, instruction lines are ignored, and other lines are measurements only inside a result set |
| SkampiFactory.AddMeasurement | results_app/src/uk/co/awe/pmat/datafiles/skampi/SkampiFactory.java:262-263 | a measurement line inside a set adds exactly its data set, or fails with it |
| SkampiFactory.Finish | results_app/src/uk/co/awe/pmat/datafiles/skampi/SkampiFactory.java:270-285 | the file needs a version; the run has the checksum as id, the path, the date or time 0, no flags and every data set read |
| SkampiFactory.LoadFile | results_app/src/uk/co/awe/pmat/datafiles/skampi/SkampiFactory.java:270-285 | a loaded file is the read lines finished, and loading gives the run the next sequential id |
| SkampiFactory.GetRunId | results_app/src/uk/co/awe/pmat/datafiles/skampi/SkampiFactory.java:338-340 | a run has an id exactly when it was loaded by this factory |
| SkampiFactory.StepData | results_app/src/uk/co/awe/pmat/datafiles/skampi/SkampiFactory.java:261-264 | a data line is a measurement inside a result set and ignored outside one |
| SkampiFactory.AppendAll | results_app/src/uk/co/awe/pmat/datafiles/skampi/SkampiFactory.java:263 | adding measurements one by one appends them all in order |
| SkampiFactory.MeasurementsAppend | results_app/src/uk/co/awe/pmat/datafiles/skampi/SkampiFactory.java:214-268 | inside a set, a block of measurement lines appends their data sets in order |
| SkampiFactory.OutsideSetIgnored | results_app/src/uk/co/awe/pmat/datafiles/skampi/SkampiFactory.java:261-264 | data lines outside any result set leave everything unchanged |
| SkampiFactory.StepBegin | results_app/src/uk/co/awe/pmat/datafiles/skampi/SkampiFactory.java:244-252 | a begin line with a quoted name opens the set named by the text between the quotes |
| SkampiFactory.StepEnd | results_app/src/uk/co/awe/pmat/datafiles/skampi/SkampiFactory.java:253-256 | an end line closes the set |
| SkampiFactory.BeginProcess | results_app/src/uk/co/awe/pmat/datafiles/skampi/SkampiFactory.java:244-252 | reading a begin line alone opens its set |
| SkampiFactory.EndProcess | results_app/src/uk/co/awe/pmat/datafiles/skampi/SkampiFactory.java:253-256 | reading an end line alone closes the set |
| SkampiFactory.ResultSetBlock | results_app/src/uk/co/awe/pmat/datafiles/skampi/SkampiFactory.java:214-268 | a begin line, measurement lines and an end line append exactly those measurements and leave no set open |
| SkampiFactory.StepKeeps | results_app/src/uk/co/awe/pmat/datafiles/skampi/SkampiFactory.java:220-243 | only a version line changes the version and only a date line changes the date |
| SkampiFactory.VersionAndDateKept | results_app/src/uk/co/awe/pmat/datafiles/skampi/SkampiFactory.java:214-268 | lines without a version line keep the version, and lines without a date line keep the date |
| SkampiFactory.LoadFileVersionAndDate | results_app/src/uk/co/awe/pmat/datafiles/skampi/SkampiFactory.java:270-276 | a file without a version line fails, and a file without a date line is dated time 0 |
| SkampiFactory.SequentialIds | results_app/src/uk/co/awe/pmat/datafiles/skampi/SkampiFactory.java:282-283 | two different files loaded one after the other get ids 0 and 1 |
| StringUtils.JoinStrings | results_app/src/uk/co/awe/pmat/utils/StringUtils.java:97-113 | the loop that puts the delimiter before every word but the first builds the words joined by the delimiter |
| StringUtils.JoinShape | results_app/src/uk/co/awe/pmat/utils/StringUtils.java:97-113 | no words join to the empty text, one word to itself, and more to the first word, the delimiter and the rest joined |
| StringUtils.JoinSplits | results_app/src/uk/co/awe/pmat/utils/StringUtils.java:97-113 | words without the delimiter character, joined by it, split back into the same words |
| StringUtils.Words | results_app/src/uk/co/awe/pmat/utils/StringUtils.java:29-33 | the words of a text are its non-empty space-free pieces |
| StringUtils.Capitalise | results_app/src/uk/co/awe/pmat/utils/StringUtils.java:35 | a word keeps its length and all but its first letter, which is upper-cased |
| StringUtils.CapitaliseAll | results_app/src/uk/co/awe/pmat/utils/StringUtils.java:32-36 | each word is capitalised in its place |
| StringUtils.CapitaliseWords | results_app/src/uk/co/awe/pmat/utils/StringUtils.java:28-39 | a text without words gives the empty text, and a single word is just capitalised |
| StringUtils.WordsOfJoin | results_app/src/uk/co/awe/pmat/utils/StringUtils.java:28-39 | non-empty space-free words joined by single spaces split back into those words |
| StringUtils.FilterKeeps | results_app/src/uk/co/awe/pmat/utils/StringUtils.java:33 | skipping empty words keeps a list of non-empty words as it is |
| StringUtils.CapitaliseWordsWords | results_app/src/uk/co/awe/pmat/utils/StringUtils.java:28-39 | the words of the result are the words of the text, each capitalised |
| StringUtils.CapitaliseWordsIdempotent | results_app/src/uk/co/awe/pmat/utils/StringUtils.java:28-39 | capitalising twice is capitalising once |
| StringUtils.CutsExtend | results_app/src/uk/co/awe/pmat/utils/StringUtils.java:70-80 | a character that starts a new token extends the cut and its concatenation by that character |
| StringUtils.CutsGrow | results_app/src/uk/co/awe/pmat/utils/StringUtils.java:72-79 | a character that does not break the token is appended to it, and the tokens still concatenate to the text read so far |
| StringUtils.CamelStep | results_app/src/uk/co/awe/pmat/utils/StringUtils.java:71-79 | a capital after a non-capital starts a new token, and any other character extends the current one |
| StringUtils.CamelLoopCut | results_app/src/uk/co/awe/pmat/utils/StringUtils.java:70-83 | the loop cuts the rest of the word at capitals that follow a non-capital |
| StringUtils.CamelTokensCut | results_app/src/uk/co/awe/pmat/utils/StringUtils.java:67-83 | the tokens concatenate back to the word, each break being a capital after a non-capital and no other |
| StringUtils.CamelNoBreakWhole | results_app/src/uk/co/awe/pmat/utils/StringUtils.java:70-83 | a word without such a break is one token |
| StringUtils.NormaliseCamelCase | results_app/src/uk/co/awe/pmat/utils/StringUtils.java:67-85 | the empty word stays empty |
| StringUtils.NormaliseCamelCaseAll | results_app/src/uk/co/awe/pmat/utils/StringUtils.java:49-57 | each word of the list is normalised in its place |
| StringUtils.NormaliseUnbroken | results_app/src/uk/co/awe/pmat/utils/StringUtils.java:67-85 | a word without a camel break is just capitalised |
| StringUtils.NormaliseAllCaps | results_app/src/uk/co/awe/pmat/utils/StringUtils.java:67-85 | an all-capitals word comes back unchanged |
| StringUtils.RepeatChar | results_app/src/uk/co/awe/pmat/utils/StringUtils.java:115-123 | a negative count is an error; otherwise the text is the character the given number of times |
| StringUtils.WordCloseness | results_app/src/uk/co/awe/pmat/utils/StringUtils.java:145-160 | the closeness of two words is the length of their common prefix |
| StringUtils.WordClosenessSymmetric | results_app/src/uk/co/awe/pmat/utils/StringUtils.java:145-160 | word closeness does not depend on the order of the words |
| StringUtils.PairScoreSymmetric | results_app/src/uk/co/awe/pmat/utils/StringUtils.java:134-138 | each token pair scores the common prefix of the lower-cased tokens, whichever way round |
| StringUtils.TableScoreColumn | results_app/src/uk/co/awe/pmat/utils/StringUtils.java:132-140 | one more token of the second word adds its score against every token of the first |
| StringUtils.ColumnIsRow | results_app/src/uk/co/awe/pmat/utils/StringUtils.java:132-140 | scoring one token against a list is the same from either side |
| StringUtils.TableScoreSwap | results_app/src/uk/co/awe/pmat/utils/StringUtils.java:132-140 | the double loop gives the same total when the two token lists are swapped |
| StringUtils.EmptyColumns | results_app/src/uk/co/awe/pmat/utils/StringUtils.java:132-140 | no tokens on one side give no score |
| StringUtils.ClosenessSymmetric | results_app/src/uk/co/awe/pmat/utils/StringUtils.java:125-143 | the closeness of two names does not depend on their order |
| StringUtils.ClosenessOneToken | results_app/src/uk/co/awe/pmat/utils/StringUtils.java:125-143 | a name without separators is as close to itself as it is long |
| StringUtils.PairScoreZero | results_app/src/uk/co/awe/pmat/utils/StringUtils.java:134-138 | tokens whose first letters differ, ignoring case, score nothing |
| JdbcTable.ReferenceRoundTrip | results_app/src/uk/co/awe/pmat/db/jdbc/JdbcTable.java:28-30 | every table's reference, its constant name in lower case, is a known reference that names that table again |
| JdbcTable.TableSelect | results_app/src/uk/co/awe/pmat/db/jdbc/JdbcTable.java:24-26 | the select text is the table name, ` AS ` and the table's reference |
| JdbcTable.ReferenceInjective | results_app/src/uk/co/awe/pmat/db/jdbc/JdbcTable.java:6-12 | different tables have different references |
| JdbcMapping.Select | results_app/src/uk/co/awe/pmat/db/jdbc/JdbcMapping.java:76-93 | a plain column is selected as reference.name; the parameter value is selected as its type and a CASE over the three typed value columns |
| JdbcMapping.SelectAlias | results_app/src/uk/co/awe/pmat/db/jdbc/JdbcMapping.java:88-92 | an alias on a plain column appends ` AS ` and the alias |
| JdbcMapping.SelectParameterValue | results_app/src/uk/co/awe/pmat/db/jdbc/JdbcMapping.java:78-86 | the parameter value select ends by naming the alias, or `Value` by default, in back quotes |
| JdbcMapping.InsertNames | results_app/src/uk/co/awe/pmat/db/jdbc/JdbcMapping.java:99-106 | the parameter value inserts four columns, a sub-run parent two, and any other column only itself |
| JdbcMapping.Marks | results_app/src/uk/co/awe/pmat/db/jdbc/JdbcMapping.java:108-115 | a list of the given number of `?` marks |
| JdbcMapping.MarksCount | results_app/src/uk/co/awe/pmat/db/jdbc/JdbcMapping.java:108-115 | the joined marks hold exactly that many `?` |
| JdbcMapping.InsertMatchesPlaceHolder | results_app/src/uk/co/awe/pmat/db/jdbc/JdbcMapping.java:99-115 | each column's placeholder has one `?` per inserted column name |
| JdbcMapping.TableMapColumn | results_app/src/uk/co/awe/pmat/db/jdbc/JdbcMapping.java:158-274 | every column in a table's map belongs to that table |
| JdbcMapping.Keys | results_app/src/uk/co/awe/pmat/db/jdbc/JdbcMapping.java:158-175 | a table's keys in insertion order |
| JdbcMapping.Lookup | results_app/src/uk/co/awe/pmat/db/jdbc/JdbcMapping.java:301-303 | a key is found exactly when the table's map has it, and gives its column |
| JdbcMapping.Find | results_app/src/uk/co/awe/pmat/db/jdbc/JdbcMapping.java:301-303 | lookup in an ordered map: found exactly when some entry has the key, and then that entry's column |
| JdbcMapping.GetSelectColumns | results_app/src/uk/co/awe/pmat/db/jdbc/JdbcMapping.java:287-295 | one select text per column of the table, in map order |
| JdbcMapping.SelectColumnsQualified | results_app/src/uk/co/awe/pmat/db/jdbc/JdbcMapping.java:287-295 | each plain column is selected as the table reference, a dot and the column name |
| JdbcMapping.BusinessKeyMapped | results_app/src/uk/co/awe/pmat/db/jdbc/JdbcMapping.java:276-284 | every business key of a table names a column of that table |
| JdbcMapping.BusinessKeysOfRunAndApplication | results_app/src/uk/co/awe/pmat/db/jdbc/JdbcMapping.java:277-284 | a run's business key is its run id, stored as `RunID`, and an application's includes its build and code |
| JdbcMapping.JoinColumnInTarget | results_app/src/uk/co/awe/pmat/db/jdbc/JdbcMapping.java:305-316 | each join column lives in the target table, links two different tables, is a long, and is never the parameter value |
| JdbcClauses.TableColumn | results_app/src/uk/co/awe/pmat/db/jdbc/JdbcTable.java:32-35 | a column reference needs the name in the table's map, and is the table reference, a dot and the column name |
| JdbcClauses.NotNull | results_app/src/uk/co/awe/pmat/db/jdbc/JdbcTable.java:32-35 | a missing map entry is an error, and a present one is used as it is |
| JdbcClauses.TableColumnIsSelect | results_app/src/uk/co/awe/pmat/db/jdbc/JdbcTable.java:32-35 | for a plain column, the column reference is its default select text |
| JdbcClauses.JoinLeft | results_app/src/uk/co/awe/pmat/db/jdbc/JdbcTable.java:37-51 | the left join needs a join column from the other table to this one |
| JdbcClauses.JoinRight | results_app/src/uk/co/awe/pmat/db/jdbc/JdbcTable.java:53-67 | the right join needs a join column from this table to the other |
| JdbcClauses.JoinRightShape | results_app/src/uk/co/awe/pmat/db/jdbc/JdbcTable.java:57-67 | the right join reads `T AS ref ON ref.column = this.ID` |
| JdbcClauses.JoinLeftShape | results_app/src/uk/co/awe/pmat/db/jdbc/JdbcTable.java:41-51 | the left join reads `T AS ref ON this.column = ref.ID` |
| JdbcClauses.SubRunJoinsRun | results_app/src/uk/co/awe/pmat/db/jdbc/JdbcTable.java:37-67 | runs and sub-runs join in one direction only |
| JdbcClauses.Comparison | results_app/src/uk/co/awe/pmat/db/jdbc/JdbcTable.java:69-106 | a comparison starts with the column name and a space |
| JdbcClauses.ComparisonMarks | results_app/src/uk/co/awe/pmat/db/jdbc/JdbcTable.java:69-106 | a null comparison adds no `?` and any other adds exactly one |
| JdbcClauses.Compare | results_app/src/uk/co/awe/pmat/db/jdbc/JdbcTable.java:69-106 | a comparison needs the name in the table's map, and compares that column |
| JdbcClauses.EqualsForms | results_app/src/uk/co/awe/pmat/db/jdbc/JdbcTable.java:108-110 | equality with null is `IS NULL` and with a value is `= ?` |
| JdbcUtils.TypeToTable | results_app/src/uk/co/awe/pmat/db/jdbc/JdbcUtils.java:65-82 | each metadata type maps to its own table, from which the type is read back |
| JdbcUtils.TypeToTableInjective | results_app/src/uk/co/awe/pmat/db/jdbc/JdbcUtils.java:65-82 | different metadata types map to different tables |
| JdbcUtils.TypeTablesAreDimensions | results_app/src/uk/co/awe/pmat/db/jdbc/JdbcUtils.java:65-82 | the tables reached from metadata types are exactly the six dimension tables |
| JdbcUtils.CategoryToTable | results_app/src/uk/co/awe/pmat/db/jdbc/JdbcUtils.java:84-107 | each criteria category maps to its own table, from which the category is read back |
| JdbcUtils.CategoryToTableInjective | results_app/src/uk/co/awe/pmat/db/jdbc/JdbcUtils.java:84-107 | different categories map to different tables |
| JdbcUtils.CategoryAgreesWithType | results_app/src/uk/co/awe/pmat/db/jdbc/JdbcUtils.java:65-107 | a metadata type and its category map to the same table |
| JdbcUtils.Retain | results_app/src/uk/co/awe/pmat/db/jdbc/JdbcUtils.java:197 | keeping the ids also in the other set leaves exactly the common ids, without duplicates |
| JdbcUtils.CommonIds | results_app/src/uk/co/awe/pmat/db/jdbc/JdbcUtils.java:191-200 | the loop leaves exactly the ids matched by every restriction, each once, and none when there are no restrictions |
| JdbcUtils.InAllExtend | results_app/src/uk/co/awe/pmat/db/jdbc/JdbcUtils.java:193-200 | one more restriction narrows the common ids to those it also matches |
| JdbcUtils.Common | results_app/src/uk/co/awe/pmat/db/jdbc/JdbcUtils.java:191-200 | the ids common to all restrictions, each once, and none when there are no restrictions |
| JdbcUtils.RetainAll | results_app/src/uk/co/awe/pmat/db/jdbc/JdbcUtils.java:193-200 | retaining over several restrictions keeps exactly the ids in all of them |
| JdbcUtils.InAllCons | results_app/src/uk/co/awe/pmat/db/jdbc/JdbcUtils.java:193-200 | an id is in all restrictions exactly when it is in the first and in all the rest |
| JdbcUtils.WhereMarks | results_app/src/uk/co/awe/pmat/db/jdbc/JdbcUtils.java:206-213 | the where clause has exactly one `?` per id parameter |
| JdbcUtils.SubRunWhereAsWritten | results_app/src/uk/co/awe/pmat/db/jdbc/JdbcUtils.java:187-204 | the clause as written never admits nothing: an empty intersection falls back to `1 = 1` |
| JdbcUtils.DisjointRestrictionsAdmitAll | results_app/src/uk/co/awe/pmat/db/jdbc/JdbcUtils.java:202-204 | two restrictions with no id in common admit every sub-run, including one neither restriction shares |
| JdbcUtils.SubRunWhere | results_app/src/uk/co/awe/pmat/db/jdbc/JdbcUtils.java:186-214 | the intended clause admits a sub-run exactly when there are no restrictions or it is matched by every one |
| JdbcUtils.SubRunWhereAgrees | results_app/src/uk/co/awe/pmat/db/jdbc/JdbcUtils.java:186-214 | the intended and the written clauses agree whenever the restrictions share an id |
| JdbcUtils.SubRunRestriction | results_app/src/uk/co/awe/pmat/db/jdbc/JdbcUtils.java:186-214 | no restrictions give `1 = 1`; otherwise the parameters gain each common id once, with one `?` per id and the earlier parameters kept; as written an empty intersection gives `1 = 1`, as intended `1 = 0` |
| JdbcUtils.WhereTexts | results_app/src/uk/co/awe/pmat/db/jdbc/JdbcUtils.java:202-213 | the three kinds of fragment, everything, nothing and an id list, have different texts |
| JdbcUtils.SubRunRestrictionAgrees | results_app/src/uk/co/awe/pmat/db/jdbc/JdbcUtils.java:186-214 | when there are no restrictions or they share an id, the written and the corrected restriction give the same text and parameters |
| ArrayUtils.Contains | results_app/src/uk/co/awe/pmat/utils/ArrayUtils.java:79-86 | the single-element search is true exactly when the element is among the items |
| ArrayUtils.ContainsAll | results_app/src/uk/co/awe/pmat/utils/ArrayUtils.java:54-63 | the array contains the other exactly when it contains each of its items |
| ArrayUtils.ContainsOwnItems | results_app/src/uk/co/awe/pmat/utils/ArrayUtils.java:54-63 | an array whose items all occur in another is contained in it, whatever the order or repetition |
| ArrayUtils.ContainsAllTransitive | results_app/src/uk/co/awe/pmat/utils/ArrayUtils.java:54-63 | containment of arrays is transitive |
| ArrayUtils.ToString | results_app/src/uk/co/awe/pmat/utils/ArrayUtils.java:32-40 | the class list prints in square brackets |
| ArrayUtils.ToStringCommas | results_app/src/uk/co/awe/pmat/utils/ArrayUtils.java:32-40 | with comma-free names, the printed list has one comma fewer than it has names |
| ArrayUtils.JoinCommas | results_app/src/uk/co/awe/pmat/utils/ArrayUtils.java:39 | names without commas joined by `, ` have one comma between each pair |
| ArrayUtils.Get | results_app/src/uk/co/awe/pmat/utils/ArrayUtils.java:125-127 | reading the view succeeds exactly for an index within the array |
| ArrayUtils.SetAt | results_app/src/uk/co/awe/pmat/utils/ArrayUtils.java:109-110 | the unmodifiable view refuses every write |
| ArrayUtils.ViewReadsArray | results_app/src/uk/co/awe/pmat/utils/ArrayUtils.java:99-132 | the view has the array's size and reads its items in place |
| Derived.NewProperty | results_app/src/uk/co/awe/pmat/deriveddata/ParserValues.java:144-146 | a property is made exactly when its text names a metadata type, and is that type |
| Derived.ReturnTypes | results_app/src/uk/co/awe/pmat/deriveddata/ParserValues.java:48-160 | every leaf and function reports exactly one return type |
| Derived.ConstantTypes | results_app/src/uk/co/awe/pmat/deriveddata/ParserValues.java:48-50 | a constant's return type is its value's class, never the void class |
| Derived.ConstantValue | results_app/src/uk/co/awe/pmat/deriveddata/ParserValues.java:43-45 | a constant's value is named by its class's simple name, has unknown rank and holds the value |
| Derived.FirstMismatch | results_app/src/uk/co/awe/pmat/deriveddata/AbstractFunction.java:57-69 | the first argument whose return types are not all among the expected ones, or none when every argument is accepted |
| Derived.BindTyped | results_app/src/uk/co/awe/pmat/deriveddata/AbstractFunction.java:46-71 | binding succeeds exactly when the counts match and every argument's types are accepted, and then keeps the arguments as given |
| Derived.Bind | results_app/src/uk/co/awe/pmat/deriveddata/AbstractFunction.java:46-71 | a function binds exactly the arguments it accepts, and is then bound to them |
| Derived.BindOr | results_app/src/uk/co/awe/pmat/deriveddata/functions/Or.java:32-50 | `or` binds exactly two variables |
| Derived.BindFind | results_app/src/uk/co/awe/pmat/deriveddata/functions/Find.java:43-66 | `find` binds exactly a variable or function, then a variable or property, then a constant |
| Derived.IfeqBindsTwoValues | results_app/src/uk/co/awe/pmat/deriveddata/functions/Ifeq.java:19-26 | `ifeq` binds any two variables, constants or properties, and no other number of arguments |
| Derived.NewInstance | results_app/src/uk/co/awe/pmat/deriveddata/AbstractFunction.java:94-104 | a new instance is the same function with its arguments cleared |
| Derived.BindWellFormed | results_app/src/uk/co/awe/pmat/deriveddata/AbstractFunction.java:46-104 | binding well-formed arguments and making a new instance keep expressions well formed |
| Derived.BoundArgs | results_app/src/uk/co/awe/pmat/deriveddata/AbstractFunction.java:70 | a bound function holds the arguments it was given |
| Derived.ExtendsTransitive | results_app/src/uk/co/awe/pmat/deriveddata/AbstractFunction.java:78-91 | adding columns to a grid, step after step, still only adds columns |
| Derived.SetColumn | results_app/src/uk/co/awe/pmat/deriveddata/ParserValues.java:55-57 | writing a column into every row sets that column in each row and nothing else |
| Derived.AddedColumnExtends | results_app/src/uk/co/awe/pmat/deriveddata/ParserValues.java:53-59 | writing one column into each row keeps the rows and their x values |
| Derived.Evaluate | results_app/src/uk/co/awe/pmat/deriveddata/AbstractFunction.java:78-91 | evaluating an expression only adds columns to the grid |
| Derived.ExtendsWhenApplied | results_app/src/uk/co/awe/pmat/deriveddata/AbstractFunction.java:78-91 | a function applied to an extended grid still extends the original |
| Derived.EvaluateAll | results_app/src/uk/co/awe/pmat/deriveddata/AbstractFunction.java:85-88 | evaluating the arguments in order only adds columns, and gives one column name per argument |
| Derived.VariableNames | results_app/src/uk/co/awe/pmat/deriveddata/ParserValues.java:122-125 | the column names of variables are their names |
| Derived.VariablesName | results_app/src/uk/co/awe/pmat/deriveddata/ParserValues.java:122-125 | variables add nothing to the grid and name their own columns |
| Derived.UnboundFails | results_app/src/uk/co/awe/pmat/deriveddata/AbstractFunction.java:79-83 | evaluating an unbound function is an error |
| Derived.ConstantFillsColumn | results_app/src/uk/co/awe/pmat/deriveddata/ParserValues.java:53-59 | a constant writes itself into every row under its own printed value |
| Derived.ApplyExtends | results_app/src/uk/co/awe/pmat/deriveddata/AbstractFunction.java:90 | applying any function to evaluated columns only adds columns |
| Derived.IfeqName | results_app/src/uk/co/awe/pmat/deriveddata/functions/Ifeq.java:40-41 | the `ifeq` column is named `ifeq(a, b)` |
| Derived.Flag | results_app/src/uk/co/awe/pmat/deriveddata/functions/Ifeq.java:54 | the flag is the left value with its value set to 1 or 0 and its error to 0 |
| Derived.IfeqCell | results_app/src/uk/co/awe/pmat/deriveddata/functions/Ifeq.java:42-54 | a row's flag needs both columns present and a left value that is not null |
| Derived.IfeqRows | results_app/src/uk/co/awe/pmat/deriveddata/functions/Ifeq.java:42-55 | `ifeq` succeeds exactly when every row's flag does, and writes each row's flag under the new name |
| Derived.IfeqMixedNumbers | results_app/src/uk/co/awe/pmat/deriveddata/functions/Ifeq.java:46-50 | an integer 2 and a double 2.0 compare as equal numbers |
| Derived.IfeqFlags | results_app/src/uk/co/awe/pmat/deriveddata/functions/Ifeq.java:46-53 | the flag is 1 exactly when the two values are the same, numbers being compared as doubles |
| Derived.IfeqEvaluates | results_app/src/uk/co/awe/pmat/deriveddata/functions/Ifeq.java:34-57 | evaluating `ifeq` of two variables fails exactly when some row's flag fails, and otherwise writes each row's flag |
| Derived.OrName | results_app/src/uk/co/awe/pmat/deriveddata/functions/Or.java:75 | the `or` column is named `or(a, b)` |
| Derived.OrCell | results_app/src/uk/co/awe/pmat/deriveddata/functions/Or.java:78-82 | each row takes the first value unless it is missing or null, and then the second |
| Derived.OrRows | results_app/src/uk/co/awe/pmat/deriveddata/functions/Or.java:77-84 | every row gets its own `or` value under the new name |
| Derived.OrEvaluates | results_app/src/uk/co/awe/pmat/deriveddata/functions/Or.java:72-87 | evaluating `or` of two variables always succeeds and writes each row's `or` value |
| Derived.FindName | results_app/src/uk/co/awe/pmat/deriveddata/functions/Find.java:93 | the `find` column is named `find(v, p, c)` |
| Derived.Matches | results_app/src/uk/co/awe/pmat/deriveddata/functions/Find.java:104 | a row whose property column holds a null value makes `find` fail |
| Derived.FirstMatch | results_app/src/uk/co/awe/pmat/deriveddata/functions/Find.java:96-107 | the first row with the x value whose property equals the constant, with no earlier such row |
| Derived.ScanSelects | results_app/src/uk/co/awe/pmat/deriveddata/functions/Find.java:96-107 | only the first matching row is recorded for each x value |
| Derived.FindRows | results_app/src/uk/co/awe/pmat/deriveddata/functions/Find.java:109-111 | every row gets the value recorded for its x value, or none |
| Derived.FindSelects | results_app/src/uk/co/awe/pmat/deriveddata/functions/Find.java:89-114 | each row's `find` value is the selected column of the first matching row with the same x value, or none when no row matches |
| Pair.EqualsIsComponentwise | results_app/src/uk/co/awe/pmat/utils/Pair.java:54-71 | two pairs are equal exactly when both their items are, null matching null, and equality is symmetric |
| Pair.HashCode | results_app/src/uk/co/awe/pmat/utils/Pair.java:74-79 | the hash is a 32-bit int computed with Java's wrap-around |
| Pair.HashCodeConsistent | results_app/src/uk/co/awe/pmat/utils/Pair.java:54-79 | equal pairs have equal hashes |
| Pair.ToString | results_app/src/uk/co/awe/pmat/utils/Pair.java:31-33 | a pair prints in parentheses, as long as its two printed items plus four characters |
| Pair.ToStringItems | results_app/src/uk/co/awe/pmat/utils/Pair.java:31-33 | a pair prints as `(`, the first item, `, `, the second item and `)`, a null item printing as `null` |
| DefaultHashMap.Get | results_app/src/uk/co/awe/pmat/utils/DefaultHashMap.java:191-201 | a present key gives its value and changes nothing; a missing key is given a freshly created value, which is stored and returned |
| DefaultHashMap.GetGrowsByOne | results_app/src/uk/co/awe/pmat/utils/DefaultHashMap.java:191-201 | a read adds at most the key read |
| DefaultHashMap.Put | results_app/src/uk/co/awe/pmat/utils/DefaultHashMap.java:204-206 | a write stores the value under the key and gives back the value it replaced, if any |
| DefaultHashMap.Remove | results_app/src/uk/co/awe/pmat/utils/DefaultHashMap.java:210-212 | a removal drops the key and gives back its value, if any |
| DefaultHashMap.Clear | results_app/src/uk/co/awe/pmat/utils/DefaultHashMap.java:220-223 | clearing empties the map and resets the creator when it resets |
| DefaultHashMap.GetAfterPut | results_app/src/uk/co/awe/pmat/utils/DefaultHashMap.java:191-206 | reading a key just written gives the written value and changes nothing |
| DefaultHashMap.GetAfterRemove | results_app/src/uk/co/awe/pmat/utils/DefaultHashMap.java:191-212 | reading a key just removed creates a fresh default value |
| GraphConfig.New | results_app/src/uk/co/awe/pmat/graph/GraphConfig.java:34-47 | a new configuration has no axis limits, linear axes, and the key shown unboxed, at the top right, inside and vertical |
| GraphConfig.GetKeyOption | results_app/src/uk/co/awe/pmat/graph/GraphConfig.java:66-82 | each key option class reads its own setting, of that class, and any other class is an error |
| GraphConfig.SetKeyOption | results_app/src/uk/co/awe/pmat/graph/GraphConfig.java:125-142 | each key option value sets only its own setting, which then reads back as that value; any other value is an error |
| GraphConfig.SetKeyOptionIdempotent | results_app/src/uk/co/awe/pmat/graph/GraphConfig.java:66-142 | writing back a key option just read changes nothing |
| GraphConfig.SetAxisMinimum | results_app/src/uk/co/awe/pmat/graph/GraphConfig.java:108-110 | the minimum of one axis is set and every other axis and setting is kept |
| GraphConfig.SetAxisMaximum | results_app/src/uk/co/awe/pmat/graph/GraphConfig.java:112-114 | the maximum of one axis is set and every other axis and setting is kept |
| GraphConfig.SetAxisLog | results_app/src/uk/co/awe/pmat/graph/GraphConfig.java:116-118 | the log flag of one axis is set and every other axis and setting is kept |
| GraphConfig.GetGraphLabel | results_app/src/uk/co/awe/pmat/graph/GraphConfig.java:49-51 | a label has a display name exactly when the map holds one for it |
| GraphConfig.SetGraphLabel | results_app/src/uk/co/awe/pmat/graph/GraphConfig.java:104-106 | setting a label's rename changes that label only |
| GraphConfig.GetLabelRenames | results_app/src/uk/co/awe/pmat/graph/GraphConfig.java:84-92 | the renames are exactly the labels whose display name differs from the label, each with its display name, each once |
| GraphConfig.AddLabelRenames | results_app/src/uk/co/awe/pmat/graph/GraphConfig.java:94-98 | adding renames adds exactly their labels to the map |
| GraphConfig.AddLabelRenamesLastWins | results_app/src/uk/co/awe/pmat/graph/GraphConfig.java:94-98 | a label renamed several times keeps its last rename |
| GraphConfig.RenamesRestoreLabels | results_app/src/uk/co/awe/pmat/graph/GraphConfig.java:84-98 | the renames read from a configuration, added to one whose labels all show as themselves, give back the same labels |
| GraphConfig.UntouchedLabel | results_app/src/uk/co/awe/pmat/graph/GraphConfig.java:94-98 | a label no rename mentions keeps its display name |
| GraphConfig.UpdateGraphLabels | results_app/src/uk/co/awe/pmat/graph/GraphConfig.java:150-163 | the old labels remember every current one; the new labels are exactly the given ones, each showing its remembered name or itself |
| GraphConfig.RenameRemembered | results_app/src/uk/co/awe/pmat/graph/GraphConfig.java:150-163 | a rename survives any number of label updates while the label is shown |
| GraphConfig.RenameStaysRemembered | results_app/src/uk/co/awe/pmat/graph/GraphConfig.java:150-163 | a remembered rename comes back whenever the label is shown again |
| GraphConfig.SetThenUpdate | results_app/src/uk/co/awe/pmat/graph/GraphConfig.java:104-163 | a label set to a rename shows that rename after any later updates that include it |
| GraphStyle.ColourRgb | results_app/src/uk/co/awe/pmat/GraphColour.java:11-57 | every palette colour is built from red, green and blue components in 0 to 255 |
| GraphStyle.ColoursDistinct | results_app/src/uk/co/awe/pmat/GraphColour.java:11-57 | no two palette colours share an RGB value |
| GraphStyle.ArgbText | results_app/src/uk/co/awe/pmat/graph/gnuplot/CommandFileWriter.java:199-200 | the opaque colour value prints in hex as `ff` followed by two digits each of red, green and blue |
| GraphStyle.RgbHexValue | results_app/src/uk/co/awe/pmat/graph/gnuplot/CommandFileWriter.java:198-203 | the six digits left after the alpha is cut off are upper-case hex digits that read back as the packed RGB value |
| GraphStyle.ColourHexValue | results_app/src/uk/co/awe/pmat/graph/gnuplot/CommandFileWriter.java:198-203 | each colour's six hex digits are upper-case and read back as its RGB value |
| GraphStyle.LineColourCommand | results_app/src/uk/co/awe/pmat/graph/gnuplot/CommandFileWriter.java:198-203 | the colour command is ` lc rgb '#`, the hex digits and a closing quote |
| GraphStyle.ColourCommandLength | results_app/src/uk/co/awe/pmat/graph/gnuplot/CommandFileWriter.java:198-203 | every colour command is seventeen characters long: all six hex digits are kept, `000000` included |
| GraphStyle.LineColourCommandInjective | results_app/src/uk/co/awe/pmat/graph/gnuplot/CommandFileWriter.java:198-203 | different colours give different colour commands |
| GraphStyle.NewLineType | results_app/src/uk/co/awe/pmat/LineType.java:46-48 | a new line type is drawn with points, in green, of width 1 |
| GraphStyle.Copy | results_app/src/uk/co/awe/pmat/LineType.java:55-57 | a copy equals the original both ways |
| GraphStyle.SetColour | results_app/src/uk/co/awe/pmat/LineType.java:76-81 | a null colour is refused; otherwise only the colour changes |
| GraphStyle.SetStyle | results_app/src/uk/co/awe/pmat/LineType.java:98-100 | only the style changes |
| GraphStyle.SetWidth | results_app/src/uk/co/awe/pmat/LineType.java:117-119 | only the width changes |
| GraphStyle.EqualsIsIdentity | results_app/src/uk/co/awe/pmat/LineType.java:122-140 | two line types are equal exactly when their style, colour and width all agree |
| GraphStyle.HashCode | results_app/src/uk/co/awe/pmat/LineType.java:143-149 | the hash is a 32-bit int computed with Java's wrap-around |
| GraphStyle.HashCodeConsistent | results_app/src/uk/co/awe/pmat/LineType.java:122-149 | equal line types have equal hashes |
| GraphStyle.HashCodeReadsWidth | results_app/src/uk/co/awe/pmat/LineType.java:143-149 | widening a line by one changes its hash |
| GraphStyle.SetterLaws | results_app/src/uk/co/awe/pmat/LineType.java:76-119 | setting the current colour changes nothing, the last colour set wins, setters of different fields commute, and a recoloured line type equals the original exactly when the colour was its own |
| GraphStyle.CopyIndependent | results_app/src/uk/co/awe/pmat/LineType.java:55-57 | a copy hashes as the original and recolouring the copy is recolouring a value equal to the original |
| GnuPlot.NewAxis | results_app/src/uk/co/awe/pmat/graph/gnuplot/GnuPlotAxis.java:27-33 | a new axis has its name, a linear scale, and no label or limits |
| GnuPlot.SetLogScale | results_app/src/uk/co/awe/pmat/graph/gnuplot/GnuPlotAxis.java:62-68 | a log base of 1 is refused; any other is stored and nothing else changes |
| GnuPlot.LogscaleCommand | results_app/src/uk/co/awe/pmat/graph/gnuplot/GnuPlotAxis.java:117-123 | a positive log base sets a log scale for the axis, and any other unsets it |
| GnuPlot.LogscaleCommandScale | results_app/src/uk/co/awe/pmat/graph/gnuplot/GnuPlotAxis.java:117-123 | the base can be read back from a log scale command |
| GnuPlot.LabelCommand | results_app/src/uk/co/awe/pmat/graph/gnuplot/GnuPlotAxis.java:130-137 | an axis without a label writes nothing, and one with a label sets it |
| GnuPlot.LabelCommandCapitalised | results_app/src/uk/co/awe/pmat/graph/gnuplot/GnuPlotAxis.java:130-137 | the label is capitalised on writing, so capitalising it first changes nothing |
| GnuPlot.BoundText | results_app/src/uk/co/awe/pmat/graph/gnuplot/GnuPlotAxis.java:149-150 | a missing bound prints as nothing |
| GnuPlot.RangeCommand | results_app/src/uk/co/awe/pmat/graph/gnuplot/GnuPlotAxis.java:144-152 | without limits the axis is autoscaled with a fixed maximum; with either limit the range is set in square brackets |
| GnuPlot.RangeOneSided | results_app/src/uk/co/awe/pmat/graph/gnuplot/GnuPlotAxis.java:148-150 | a minimum alone gives the open range `[min:]` |
| GnuPlot.TicsCommand | results_app/src/uk/co/awe/pmat/graph/gnuplot/GnuPlotAxis.java:159-164 | the tics command always fails, being unimplemented |
| GnuPlot.UpdateAxis | results_app/src/uk/co/awe/pmat/graph/gnuplot/CommandFileWriter.java:77-83 | an updated axis takes log base 2 or 0 from the log flag and its limits from the configuration, keeping its name and label |
| GnuPlot.UpdateAxes | results_app/src/uk/co/awe/pmat/graph/gnuplot/CommandFileWriter.java:76-84 | only the x1 and y1 axes are updated from the configuration |
| GnuPlot.UpdatedCommandsFollowConfig | results_app/src/uk/co/awe/pmat/graph/gnuplot/CommandFileWriter.java:76-84 | after an update, the x1 commands follow the configuration's log flag and limits |
| GnuPlot.XLabels | results_app/src/uk/co/awe/pmat/graph/gnuplot/CommandFileWriter.java:103-106 | one x label per plottable: the configured display name of its x axis |
| GnuPlot.YLabels | results_app/src/uk/co/awe/pmat/graph/gnuplot/CommandFileWriter.java:103-106 | one y label per plottable: the configured display name of its y axis |
| GnuPlot.Texts | results_app/src/uk/co/awe/pmat/graph/gnuplot/CommandFileWriter.java:111-112 | labels are printed with `null` for a missing one |
| GnuPlot.AxisLabel | results_app/src/uk/co/awe/pmat/graph/gnuplot/CommandFileWriter.java:100-112 | the axis label is the distinct labels in first-seen order joined by commas, prefixed by `Log Of ` on a log axis |
| GnuPlot.UpdateAxesLabels | results_app/src/uk/co/awe/pmat/graph/gnuplot/CommandFileWriter.java:95-113 | only the x1 and y1 labels are set |
| GnuPlot.SharedAxisLabelledOnce | results_app/src/uk/co/awe/pmat/graph/gnuplot/CommandFileWriter.java:100-111 | plottables that share one x axis name it once |
| GnuPlot.FreshAxesCommands | results_app/src/uk/co/awe/pmat/graph/gnuplot/CommandFileWriter.java:123-139 | axes never configured write no labels, unset every log scale, and autoscale all four axes, in that order |
| GnuPlot.Keyword | results_app/src/uk/co/awe/pmat/graph/gnuplot/CommandFileWriter.java:154-178 | each line style has a non-empty gnuplot keyword without spaces |
| GnuPlot.KeywordInjective | results_app/src/uk/co/awe/pmat/graph/gnuplot/CommandFileWriter.java:154-178 | different line styles have different keywords |
| GnuPlot.LineStyleCommand | results_app/src/uk/co/awe/pmat/graph/gnuplot/CommandFileWriter.java:149-189 | the style command is `with`, the keyword, `lw` and the width, then the colour command |
| GnuPlot.FirstWordDetermined | results_app/src/uk/co/awe/pmat/graph/gnuplot/CommandFileWriter.java:151-181 | a text made of a space-free word, a space and a rest determines both |
| GnuPlot.StyleTextDetermined | results_app/src/uk/co/awe/pmat/graph/gnuplot/CommandFileWriter.java:151-181 | the keyword and what follows ` lw ` can be read back from a style command |
| GnuPlot.LineStyleCommandInjective | results_app/src/uk/co/awe/pmat/graph/gnuplot/CommandFileWriter.java:149-189 | different line types of 32-bit widths give different style commands |
| GnuPlot.SameStyle | results_app/src/uk/co/awe/pmat/graph/gnuplot/CommandFileWriter.java:149-189 | equal style commands name the same line style, width and colour text |
| GraphLine.NewLine | results_app/src/uk/co/awe/pmat/graph/GraphLine.java:25-28 | a new line has no series groups, the default line type and the empty name |
| GraphLine.GetNames | results_app/src/uk/co/awe/pmat/graph/GraphLine.java:45-51 | one name per series group, in order |
| GraphLine.GetName | results_app/src/uk/co/awe/pmat/graph/GraphLine.java:36-38 | a line without groups is unnamed, and a line with one group has that group's name |
| GraphLine.GetSeriesGroup | results_app/src/uk/co/awe/pmat/graph/GraphLine.java:59-61 | reading a group succeeds exactly for an index within the list, and is otherwise an index error |
| GraphLine.AddSeriesGroup | results_app/src/uk/co/awe/pmat/graph/GraphLine.java:68-70 | adding a group keeps the line type and adds one group |
| GraphLine.AddSeriesGroups | results_app/src/uk/co/awe/pmat/graph/GraphLine.java:77-79 | adding another line's groups keeps the line type and adds all of them |
| GraphLine.GetAfterAdd | results_app/src/uk/co/awe/pmat/graph/GraphLine.java:59-70 | an added group is read back at the end, and the earlier groups stay where they were |
| GraphLine.AddSeriesGroupsIsAddEach | results_app/src/uk/co/awe/pmat/graph/GraphLine.java:68-79 | adding another line's groups is adding them one by one |
| GraphLine.NewLineReadsBack | results_app/src/uk/co/awe/pmat/graph/GraphLine.java:25-70 | groups added to a new line are read back in order |
| GraphLine.NameAfterAdd | results_app/src/uk/co/awe/pmat/graph/GraphLine.java:36-70 | adding a group appends its name, after ` / ` when the line was already named |
| GraphLine.NamesAfterAddAll | results_app/src/uk/co/awe/pmat/graph/GraphLine.java:45-79 | adding another line's groups appends its names |
| AbstractPlotter.NewPlotter | results_app/src/uk/co/awe/pmat/graph/AbstractPlotter.java:32-50 | a new plotter has no x tics, a counter at 0, the minimum image size and no plot type |
| AbstractPlotter.SetPlotType | results_app/src/uk/co/awe/pmat/graph/AbstractPlotter.java:91-95 | the type is set, and the answer says whether it changed |
| AbstractPlotter.SetPlotTypeTwice | results_app/src/uk/co/awe/pmat/graph/AbstractPlotter.java:91-95 | setting the same type again reports no change |
| AbstractPlotter.Round | results_app/src/uk/co/awe/pmat/graph/AbstractPlotter.java:398-400 | rounding is towards zero to a multiple of the increment |
| AbstractPlotter.NewSize | results_app/src/uk/co/awe/pmat/graph/AbstractPlotter.java:375-378 | a requested size becomes at least the minimum, and above it the largest multiple of the increment not over the request |
| AbstractPlotter.SetImageSize | results_app/src/uk/co/awe/pmat/graph/AbstractPlotter.java:372-387 | the size changes, and the answer is true, exactly when either new side differs from the old by more than one increment |
| AbstractPlotter.SetImageSizeTwice | results_app/src/uk/co/awe/pmat/graph/AbstractPlotter.java:372-387 | asking for the same size again changes nothing |
| AbstractPlotter.SetImageSizeSmallStep | results_app/src/uk/co/awe/pmat/graph/AbstractPlotter.java:380-386 | a request within two increments above a rounded size is ignored |
| AbstractPlotter.DoubleValue | results_app/src/uk/co/awe/pmat/graph/AbstractPlotter.java:297 | an integer cell reads as the same number |
| AbstractPlotter.CellText | results_app/src/uk/co/awe/pmat/graph/AbstractPlotter.java:351 | an integer cell prints in decimal, a double cell as `Double.toString` prints it, and a text cell as itself |
| AbstractPlotter.Divide | results_app/src/uk/co/awe/pmat/graph/AbstractPlotter.java:308 | double division: the exact quotient of finite numbers, NaN from NaN, and an infinity for a non-zero number over zero |
| AbstractPlotter.YValue | results_app/src/uk/co/awe/pmat/graph/AbstractPlotter.java:290-329 | a y cell is written exactly when it is writable; a missing value is `-`, and the first Kiviat column is `1.0` |
| AbstractPlotter.YValues | results_app/src/uk/co/awe/pmat/graph/AbstractPlotter.java:284-332 | the y cells are written exactly when each is writable, each after a tab |
| AbstractPlotter.XValue | results_app/src/uk/co/awe/pmat/graph/AbstractPlotter.java:344-358 | a null x value fails; a number on a plot that is not Kiviat is printed as it is; only the x tics may change |
| AbstractPlotter.OutputRow | results_app/src/uk/co/awe/pmat/graph/AbstractPlotter.java:279-334 | a row is written exactly when its x value is present and each y cell is writable, and ends with a newline |
| AbstractPlotter.WriteRows | results_app/src/uk/co/awe/pmat/graph/AbstractPlotter.java:244-254 | writing the rows changes nothing of the plotter but its x tics |
| AbstractPlotter.RepeatFirstX | results_app/src/uk/co/awe/pmat/graph/AbstractPlotter.java:256-266 | the Kiviat repeat changes nothing of the plotter but its x tics |
| AbstractPlotter.WritePlotData | results_app/src/uk/co/awe/pmat/graph/AbstractPlotter.java:234-267 | an empty table is an I/O error; writing changes only the x tics, and a table with a non-empty first row writes something |
| AbstractPlotter.RepeatedRowAddsNothing | results_app/src/uk/co/awe/pmat/graph/AbstractPlotter.java:245-247 | a row equal to the one before it writes nothing |
| AbstractPlotter.RepeatedLastRowSkipped | results_app/src/uk/co/awe/pmat/graph/AbstractPlotter.java:244-254 | repeating the last row of a table does not change what is written |
| AbstractPlotter.RepeatStopsAtNewX | results_app/src/uk/co/awe/pmat/graph/AbstractPlotter.java:260-265 | the Kiviat repeat stops at the first row whose x value differs from the first |
| AbstractPlotter.XKey | results_app/src/uk/co/awe/pmat/graph/AbstractPlotter.java:352-355 | an x value gets a tic exactly when it is present and is text or the plot is Kiviat |
| AbstractPlotter.Numbering | results_app/src/uk/co/awe/pmat/graph/AbstractPlotter.java:32-43 | the tic numbering has exactly the x values seen |
| AbstractPlotter.GetNumbered | results_app/src/uk/co/awe/pmat/graph/AbstractPlotter.java:32-43 | reading a value's tic keeps the numbering in first-seen order and gives the value's first-seen position |
| AbstractPlotter.OutputRowNumbered | results_app/src/uk/co/awe/pmat/graph/AbstractPlotter.java:344-358 | writing a row keeps the tic numbering in first-seen order |
| AbstractPlotter.WriteRowsNumbered | results_app/src/uk/co/awe/pmat/graph/AbstractPlotter.java:244-254 | writing the rows keeps the tic numbering in first-seen order |
| AbstractPlotter.RepeatKeepsNumbering | results_app/src/uk/co/awe/pmat/graph/AbstractPlotter.java:256-266 | the Kiviat repeat adds no tics |
| AbstractPlotter.XticsFirstSeen | results_app/src/uk/co/awe/pmat/graph/AbstractPlotter.java:234-267 | after writing, the tics number the table's x values from 0 in first-seen order |
| AbstractPlotter.NumberingIsIndex | results_app/src/uk/co/awe/pmat/graph/AbstractPlotter.java:32-43 | tic numbers are distinct and run from 0 below the number of distinct values |
| AbstractPlotter.ThreeCellRow | results_app/src/uk/co/awe/pmat/graph/AbstractPlotter.java:279-334 | a numeric row of three cells is written as the x value and the two y texts separated by tabs |
| AbstractPlotter.TabSeparatedExample | results_app/test/uk/co/awe/pmat/graph/AbstractPlotterTest.java:55-70 | three rows with missing values are written tab-separated with `-` for each missing value |
| AbstractPlotter.RepeatedRowsExample | results_app/test/uk/co/awe/pmat/graph/AbstractPlotterTest.java:93-110 | repeated rows are written once |
| ComboBoxModel.ResetSelection | results_app/src/uk/co/awe/pmat/gui/utils/DefaultComboBoxModel.java:244-254 | with a header the header is shown and selected; otherwise the first element, if any, is selected |
| ComboBoxModel.New | results_app/src/uk/co/awe/pmat/gui/utils/DefaultComboBoxModel.java:121-129 | a new model holds the items; with a header nothing is selected, and without one the first item is selected |
| ComboBoxModel.GetSelectedElement | results_app/src/uk/co/awe/pmat/gui/utils/DefaultComboBoxModel.java:147-149 | while the header is selected there is no selected element, and otherwise it is the selection |
| ComboBoxModel.HasSelectedIffElement | results_app/src/uk/co/awe/pmat/gui/utils/DefaultComboBoxModel.java:158-160 | there is a selected element exactly when reading it gives one |
| ComboBoxModel.GetSelectedItem | results_app/src/uk/co/awe/pmat/gui/utils/DefaultComboBoxModel.java:335-337 | the selected item is the header while it is selected, and otherwise the selected element |
| ComboBoxModel.GetSize | results_app/src/uk/co/awe/pmat/gui/utils/DefaultComboBoxModel.java:343-345 | the size counts the elements, plus one for a shown header |
| ComboBoxModel.GetElement | results_app/src/uk/co/awe/pmat/gui/utils/DefaultComboBoxModel.java:300-308 | an element is read exactly for an index past the shown header and below the size |
| ComboBoxModel.GetIndexOf | results_app/src/uk/co/awe/pmat/gui/utils/DefaultComboBoxModel.java:169-171 | an element's index is within the list past the shown header, and a missing element gets the index just before the first element |
| ComboBoxModel.IndexRoundTrip | results_app/src/uk/co/awe/pmat/gui/utils/DefaultComboBoxModel.java:169-171 | for distinct elements, the index of the element read at an index is that index |
| ComboBoxModel.SetSelectedItem | results_app/src/uk/co/awe/pmat/gui/utils/DefaultComboBoxModel.java:314-331 | choosing the header selects it without a change event; choosing anything else hides the header and fires exactly when the selection changes |
| ComboBoxModel.SelectTwiceFiresOnce | results_app/src/uk/co/awe/pmat/gui/utils/DefaultComboBoxModel.java:314-331 | choosing the same element twice fires at most once, and the element is then the selection |
| ComboBoxModel.SelectNothingAlwaysFires | results_app/src/uk/co/awe/pmat/gui/utils/DefaultComboBoxModel.java:314-331 | clearing the selection always fires and leaves no selected element |
| ComboBoxModel.SelectHeader | results_app/src/uk/co/awe/pmat/gui/utils/DefaultComboBoxModel.java:289-291 | selecting the header keeps the element selection without firing; with no header the selection is cleared |
| ComboBoxModel.HeaderThenBack | results_app/src/uk/co/awe/pmat/gui/utils/DefaultComboBoxModel.java:289-331 | selecting the header and then the earlier element again restores it without firing |
| ComboBoxModel.AddElement | results_app/src/uk/co/awe/pmat/gui/utils/DefaultComboBoxModel.java:179-185 | the element is appended, and adding to a non-empty list changes nothing else |
| ComboBoxModel.FirstElementSelected | results_app/src/uk/co/awe/pmat/gui/utils/DefaultComboBoxModel.java:179-185 | the first element added to an empty model is selected |
| ComboBoxModel.InsertElementAt | results_app/src/uk/co/awe/pmat/gui/utils/DefaultComboBoxModel.java:195-198 | inserting succeeds exactly for a position within the list, and the element is then read at that index |
| ComboBoxModel.RemoveElement | results_app/src/uk/co/awe/pmat/gui/utils/DefaultComboBoxModel.java:207-225 | removing a null element fails; otherwise the first occurrence is removed, and removing an element that is not selected changes nothing else |
| ComboBoxModel.RemoveSelectedSelectsPrevious | results_app/src/uk/co/awe/pmat/gui/utils/DefaultComboBoxModel.java:207-225 | removing the selected element selects the one before it |
| ComboBoxModel.RemoveAllElements | results_app/src/uk/co/awe/pmat/gui/utils/DefaultComboBoxModel.java:230-238 | removing all elements empties the list and keeps the header |
| ComboBoxModel.RemoveAllIsNew | results_app/src/uk/co/awe/pmat/gui/utils/DefaultComboBoxModel.java:230-254 | a model emptied of its elements is a new model with the same header |
| ComboBoxModel.AddAllElements | results_app/src/uk/co/awe/pmat/gui/utils/DefaultComboBoxModel.java:262-270 | the items are appended, and the selection changes only when there was none |
| ComboBoxModel.AddAllSelectsFirst | results_app/src/uk/co/awe/pmat/gui/utils/DefaultComboBoxModel.java:262-270 | adding items to an empty model without a header selects the first item and fires |
| SeriesTableModel.NameCells | results_app/src/uk/co/awe/pmat/db/series/SeriesTableModel.java:54 | a row's name cells are its name split at `/`, so no cell holds a `/` |
| SeriesTableModel.NameCellsRejoin | results_app/src/uk/co/awe/pmat/db/series/SeriesTableModel.java:54 | joining the name cells with `/` gives back a name that does not end in `/` |
| SeriesTableModel.NewTable | results_app/src/uk/co/awe/pmat/db/series/SeriesTableModel.java:23-25 | a new table has no rows and only the three line-type columns |
| SeriesTableModel.GetLine | results_app/src/uk/co/awe/pmat/db/series/SeriesTableModel.java:33-35 | reading a line succeeds exactly for a row index within the table |
| SeriesTableModel.GetSeries | results_app/src/uk/co/awe/pmat/db/series/SeriesTableModel.java:43-45 | reading a series succeeds exactly for a column index within the series columns |
| SeriesTableModel.AddRow | results_app/src/uk/co/awe/pmat/db/series/SeriesTableModel.java:52-56 | adding a line adds one row, read back at the end, and keeps the columns |
| SeriesTableModel.AddColumn | results_app/src/uk/co/awe/pmat/db/series/SeriesTableModel.java:63-66 | adding a series adds one column, read back at the end, and keeps the rows |
| SeriesTableModel.RemoveColumn | results_app/src/uk/co/awe/pmat/db/series/SeriesTableModel.java:73-76 | removing a column succeeds exactly for an index within the columns and deletes only that column |
| SeriesTableModel.RemoveRow | results_app/src/uk/co/awe/pmat/db/series/SeriesTableModel.java:83-87 | removing a row deletes it from the lines and from the name cells, and fails for an index outside either |
| SeriesTableModel.EditsKeepAligned | results_app/src/uk/co/awe/pmat/db/series/SeriesTableModel.java:52-87 | adding and removing rows and columns keeps one row of name cells per line |
| SeriesTableModel.RemoveRowWhenPresent | results_app/src/uk/co/awe/pmat/db/series/SeriesTableModel.java:83-87 | in an aligned table, removing a row succeeds exactly for an index below the row count |
| SeriesTableModel.Clear | results_app/src/uk/co/awe/pmat/db/series/SeriesTableModel.java:92-97 | a cleared table has no rows and only the three line-type columns |
| SeriesTableModel.GetColumnName | results_app/src/uk/co/awe/pmat/db/series/SeriesTableModel.java:110-115 | the series columns are named by their series, then come Colour, Line Type and Line Width |
| SeriesTableModel.GetValueAt | results_app/src/uk/co/awe/pmat/db/series/SeriesTableModel.java:128-133 | the last three columns read the row's colour, style and width; the others read the row's name cells |
| SeriesTableModel.EditLineType | results_app/src/uk/co/awe/pmat/db/series/SeriesTableModel.java:138-144 | a line-type edit succeeds exactly when the value has the column's type, and a null colour fails |
| SeriesTableModel.SetValueAt | results_app/src/uk/co/awe/pmat/db/series/SeriesTableModel.java:136-148 | an edit outside the line-type columns fails, and a successful edit changes only that row's line type |
| SeriesTableModel.SetThenGet | results_app/src/uk/co/awe/pmat/db/series/SeriesTableModel.java:123-148 | a successful edit is read back, and a cell that is not editable rejects every edit |
| SeriesTableModel.SetChangesOneCell | results_app/src/uk/co/awe/pmat/db/series/SeriesTableModel.java:128-148 | an edit leaves every other cell as it was |
| SeriesTableModel.EditablePastLastColumn | results_app/src/uk/co/awe/pmat/db/series/SeriesTableModel.java:123-148 | a column past the last reports editable, yet editing it fails |
| RunTableModel.AddFile | results_app/src/uk/co/awe/pmat/gui/utils/RunTableModel.java:50-54 | adding a run with a file appends an incomplete row that is to be added; a run without a file fails |
| RunTableModel.RunsToAddAppend | results_app/src/uk/co/awe/pmat/gui/utils/RunTableModel.java:62-72 | the runs to add from two lists of rows are those of each, in order |
| RunTableModel.RunsToAddMembers | results_app/src/uk/co/awe/pmat/gui/utils/RunTableModel.java:62-72 | a run is to be added exactly when some row marked to add holds it |
| RunTableModel.AddFileRunsToAdd | results_app/src/uk/co/awe/pmat/gui/utils/RunTableModel.java:50-72 | an added file's run is the last run to add |
| RunTableModel.MarkAdded | results_app/src/uk/co/awe/pmat/gui/utils/RunTableModel.java:98-110 | a row of the run becomes added and unmarked on success and failed on failure; other rows are unchanged |
| RunTableModel.SetAdded | results_app/src/uk/co/awe/pmat/gui/utils/RunTableModel.java:98-110 | every row is marked for the run, and the row count is kept |
| RunTableModel.WithoutRun | results_app/src/uk/co/awe/pmat/gui/utils/RunTableModel.java:98-110 | none of the runs left equals the saved run |
| RunTableModel.SavedRunsNotToAdd | results_app/src/uk/co/awe/pmat/gui/utils/RunTableModel.java:62-110 | after a save, the runs to add are the earlier ones without the saved run |
| RunTableModel.FailedRunsStillToAdd | results_app/src/uk/co/awe/pmat/gui/utils/RunTableModel.java:62-110 | after a failed save, the runs to add are unchanged |
| RunTableModel.SetException | results_app/src/uk/co/awe/pmat/gui/utils/RunTableModel.java:128-134 | every row of the run gets the exception, and the other rows are unchanged |
| RunTableModel.GetRowException | results_app/src/uk/co/awe/pmat/gui/utils/RunTableModel.java:118-120 | reading a row's exception succeeds exactly for a row within the table |
| RunTableModel.SetExceptionReadBack | results_app/src/uk/co/awe/pmat/gui/utils/RunTableModel.java:118-134 | an exception set for a run is read back from that run's rows |
| RunTableModel.GetRunFileAt | results_app/src/uk/co/awe/pmat/gui/utils/RunTableModel.java:142-145 | reading a row's run and file succeeds exactly for a row within the table |
| RunTableModel.ToggleRow | results_app/src/uk/co/awe/pmat/gui/utils/RunTableModel.java:152-155 | toggling flips one row's add mark and changes nothing else |
| RunTableModel.ToggleTwice | results_app/src/uk/co/awe/pmat/gui/utils/RunTableModel.java:152-155 | toggling a row twice restores the table |
| RunTableModel.GetColumnName | results_app/src/uk/co/awe/pmat/gui/utils/RunTableModel.java:184-186 | a column name exists exactly for the three columns, the last being Add |
| RunTableModel.GetValueAt | results_app/src/uk/co/awe/pmat/gui/utils/RunTableModel.java:214-227 | the columns read the file's directory, its name and the add mark, and only the add column is boolean |
| RunTableModel.SetValueAt | results_app/src/uk/co/awe/pmat/gui/utils/RunTableModel.java:230-240 | only the add column takes an edit, and it must be a boolean |
| RunTableModel.SetThenGet | results_app/src/uk/co/awe/pmat/gui/utils/RunTableModel.java:214-240 | an edited add mark is read back, and every other cell is unchanged |
| RunTableModel.SetAndToggle | results_app/src/uk/co/awe/pmat/gui/utils/RunTableModel.java:152-155 | setting a row's mark to its current value changes nothing, and setting the other value toggles the row |
| RunTableModel.GetRowColour | results_app/src/uk/co/awe/pmat/gui/utils/RunTableModel.java:259-268 | an added row is green, a failed one red and any other white |
| RunTableModel.ColoursDistinct | results_app/src/uk/co/awe/pmat/gui/utils/RunTableModel.java:27-29 | the three row colours differ |
| RunTableModel.RowColourAfterSave | results_app/src/uk/co/awe/pmat/gui/utils/RunTableModel.java:259-268 | a new row is white, and a saved run's rows turn green or red by the outcome |
| RunTableModel.Clear | results_app/src/uk/co/awe/pmat/gui/utils/RunTableModel.java:203-206 | a cleared table has no rows and no runs to add |
| EventHub.NewHub | results_app/src/uk/co/awe/pmat/gui/events/EventHub.java:43-45 | a new hub has no listeners for any event type |
| EventHub.Subscribe | results_app/src/uk/co/awe/pmat/gui/events/EventHub.java:55-56 | subscribing appends the listener to one type's list and leaves every other type's list as it was |
| EventHub.NotifyEvent | results_app/src/uk/co/awe/pmat/gui/events/EventHub.java:67-72 | one notification per subscription to the type |
| EventHub.SubscribeEachListeners | results_app/src/uk/co/awe/pmat/gui/events/EventHub.java:54-57 | subscribing to a list of types adds the listener once per occurrence of each type, after the earlier listeners |
| EventHub.AllTypesOnce | results_app/src/uk/co/awe/pmat/gui/events/EventHub.java:49-53 | the list of all event types holds each type exactly once |
| EventHub.NotifyAfterAdd | results_app/src/uk/co/awe/pmat/gui/events/EventHub.java:47-72 | after adding a listener, an event reaches the earlier listeners and then the new one once per listing of its type, or once when no types were given |
| EventHub.NotSubscribedNotNotified | results_app/src/uk/co/awe/pmat/gui/events/EventHub.java:47-72 | a listener added for other types only is not told of the event |
| EventHub.SubscribeToAll | results_app/src/uk/co/awe/pmat/gui/events/EventHub.java:43-72 | a new hub tells nobody, and a listener added with no types hears every event exactly once |
| ExceptionDialog.SpaceFrom | results_app/src/uk/co/awe/pmat/gui/ExceptionDialog.java:140 | the first space at or after a position, or none when there is none |
| ExceptionDialog.Segments | results_app/src/uk/co/awe/pmat/gui/ExceptionDialog.java:139-148 | the pieces are all non-empty, and there are none only for an empty line |
| ExceptionDialog.WrapLine | results_app/src/uk/co/awe/pmat/gui/ExceptionDialog.java:132-151 | a line no longer than sixty characters is not changed |
| ExceptionDialog.SegmentsBreakAtFirstSpace | results_app/src/uk/co/awe/pmat/gui/ExceptionDialog.java:137-148 | each break is at the first space at or after the sixtieth character, and the last piece has no space there to break at |
| ExceptionDialog.SegmentsRoundTrip | results_app/src/uk/co/awe/pmat/gui/ExceptionDialog.java:137-148 | joining the pieces with spaces gives the line back, up to a final space that was a break |
| ExceptionDialog.WrapLineRoundTrip | results_app/src/uk/co/awe/pmat/gui/ExceptionDialog.java:132-151 | the wrapped text is the pieces joined by `<br/>`, and joining them with spaces gives the line back |
| ExceptionDialog.WrapLineLoop | results_app/src/uk/co/awe/pmat/gui/ExceptionDialog.java:132-151 | the loop builds the same text as the pieces joined by `<br/>` |
| ExceptionDialog.ExceptionMessage | results_app/src/uk/co/awe/pmat/gui/ExceptionDialog.java:160-170 | without a message the text is the class name; a short message is shown after the name and a colon |
| RunSaver.DirectoryName | results_app/src/uk/co/awe/pmat/RunSaver.java:43-44 | a directory name has no spaces and is as long as the trimmed display name |
| RunSaver.DirectoryNameRoundTrip | results_app/src/uk/co/awe/pmat/RunSaver.java:43-44 | turning the underscores back into spaces gives the trimmed display name, when it had no underscores |
| RunSaver.StoreName | results_app/src/uk/co/awe/pmat/RunSaver.java:35-48 | the path exists exactly when all four metadata records have display names, and ends with the run id and `.prf` |
| RunSaver.Directories | results_app/src/uk/co/awe/pmat/RunSaver.java:42-45 | the directory names exist exactly when every listed record has a display name, one name per type |
| RunSaver.StoreNameParts | results_app/src/uk/co/awe/pmat/RunSaver.java:35-48 | the path is the application, machine, compiler and MPI directory names in that order |
| RunSaver.Scores | results_app/src/uk/co/awe/pmat/RunSaver.java:98-101 | one score per candidate |
| RunSaver.ScoresAt | results_app/src/uk/co/awe/pmat/RunSaver.java:98-101 | each score is the larger closeness of the display name to the file name and to the application name |
| RunSaver.PickGuess | results_app/src/uk/co/awe/pmat/RunSaver.java:97-105 | there is a guess exactly when some score is above three, and then it is the first of the highest scores |
| RunSaver.GuessApplication | results_app/src/uk/co/awe/pmat/RunSaver.java:93-109 | no application is guessed exactly when no score is above three, and otherwise the first application with the highest score |
| RunSaver.GuessUnique | results_app/src/uk/co/awe/pmat/RunSaver.java:93-109 | there is at most one guess |
| FileUtils.GetSaveAsFile | results_app/src/uk/co/awe/pmat/utils/FileUtils.java:64-79 | the file always ends with the extension; for a base that is not a directory it is the absolute path, with the extension added only when missing |
| FileUtils.SaveAsIdempotent | results_app/src/uk/co/awe/pmat/utils/FileUtils.java:64-79 | asking again with the chosen file gives the same file |
| FileUtils.SaveAsInDirectory | results_app/src/uk/co/awe/pmat/utils/FileUtils.java:68-69 | for a directory, the file is the default name and extension inside that directory |
| FileUtils.GlobToRegexAppend | results_app/src/uk/co/awe/pmat/utils/FileUtils.java:201-205 | the translation of a glob works piece by piece |
| FileUtils.GlobToRegexIsCharMap | results_app/src/uk/co/awe/pmat/utils/FileUtils.java:201-205 | the chain of replacements is one translation per glob character |
| FileUtils.RegexToGlobOfGlobToRegex | results_app/src/uk/co/awe/pmat/utils/FileUtils.java:187-205 | for a glob without regex punctuation, turning it into a regex and back gives the glob |
| FileUtils.ParenthesisComesBackAsBrace | results_app/src/uk/co/awe/pmat/utils/FileUtils.java:187-205 | a parenthesis in a glob comes back from the round trip as a brace |
| Configuration.ResourceKey | results_app/src/uk/co/awe/pmat/Configuration.java:42-90 | the username, password and stored name keys have no resource key, and every other key has one |
| Configuration.SetProperty | results_app/src/uk/co/awe/pmat/Configuration.java:350-355 | setting succeeds exactly for a key with a resource key and a value that is not null, and keeps the mode and database settings |
| Configuration.SchemaSuffix | results_app/src/uk/co/awe/pmat/Configuration.java:384-392 | only the normal mode has no schema suffix |
| Configuration.GetProperty | results_app/src/uk/co/awe/pmat/Configuration.java:368-394 | a key that is not computed reads its stored value; the schema is the database schema with the mode's suffix, and it is null exactly in the normal mode with a null database schema (the suffixed modes read `null_dev` or `null_test`) |
| Configuration.SetThenGet | results_app/src/uk/co/awe/pmat/Configuration.java:350-394 | a stored key reads back the value set |
| Configuration.SetKeepsOthers | results_app/src/uk/co/awe/pmat/Configuration.java:350-394 | setting one key leaves every other stored key as it was |
| Configuration.ComputedNotSettable | results_app/src/uk/co/awe/pmat/Configuration.java:350-355 | the username, password and stored name cannot be set |
| Configuration.SchemaPerMode | results_app/src/uk/co/awe/pmat/Configuration.java:384-392 | the three modes read three different schemas, and the normal mode reads the database schema itself, null when that is null |
| Configuration.PasswordFromOption | results_app/src/uk/co/awe/pmat/Configuration.java:456-479 | the NONE option gives no password, and the user-specified option gives the stored password |
| Configuration.PasswordUnset | results_app/src/uk/co/awe/pmat/Configuration.java:456-479 | without a password option the password cannot be read |
| Configuration.UpdateFrom | results_app/src/uk/co/awe/pmat/Configuration.java:290-293 | updating keeps this configuration's mode and database settings |
| Configuration.UpdateFromReads | results_app/src/uk/co/awe/pmat/Configuration.java:290-293 | after updating, every stored key reads as in the other configuration |
| Configuration.ConfigFileName | results_app/src/uk/co/awe/pmat/Configuration.java:487-506 | the configuration file is in the configuration directory and has the configuration extension |
| Configuration.ConfigFileNamesDistinct | results_app/src/uk/co/awe/pmat/Configuration.java:487-506 | each mode has its own configuration file |

## Left out

- File and process I/O is not modelled: opening and reading files, `getMD5sum`, `globMatch` and `findMatchingFiles`, copying stored files, `RunSaver.saveRun`, `Configuration` `saveConfigFile` and `loadConfigFile`, `RunTableModel.openFileForRow`, and running GnuPlot. The lines of a file are the input, and the MD5 sum is a parameter.
- The connection to the database is an abstract map from table to rows. JDBC statements, transactions and the restriction queries are not modelled; the restriction ids are inputs.
- Dates are not computed. `SimpleDateFormat`, `time.mktime` and `strptime` are parameters that return a timestamp or fail, and so are `os.getlogin` and the working directory.
- Floating-point arithmetic is modelled with exact reals. `Double.parseDouble` gives the exact value of the decimal text, and IEEE rounding is not modelled. Division is exact. `Double.toString` is a parameter.
- Swing dialogs, events and listener notification are not modelled: table-model events, combo-box list-data events, the selection action and the change events of `GraphConfig`. `EventHub` returns the listeners it would notify instead of calling them, and the commented-out worker thread is not modelled.
- `Configuration` reads `user.name` and `user.dir` from the environment, and these are inputs. The ASK_ON_CONNECT options, which loop on a dialog until the user types something, take the typed value as an input.
- Configuration.SetKeepsOthers: requires the other key to have a different resource key, because two keys that share a resource key read the same stored value.
- FileUtils.RegexToGlobOfGlobToRegex: holds only for globs without regex punctuation. For other globs the round trip does not hold; `FileUtils.ParenthesisComesBackAsBrace` shows one such case.
- `java.io.File` is modelled on normalised Unix paths. Path normalisation and the file system's `isDirectory` are not modelled; `isDirectory` is an input of `FileUtils.GetSaveAsFile`.
- `JdbcUtils.SubRunWhere` takes the restriction ids as sequences. `HashSet` iteration order is not modelled: the ids keep the first restriction's order.
- Derived.BindFind: does not model the partial bind that the source leaves behind when `bind` fails after storing its first argument.
- GnuPlot.TicsCommand: models `ticsCommandString` as written, a stub that always throws.
- `SeriesTableModel` does not model a `null` style or width written into a cell. Java's cast of a wrong-typed value is modelled as a failure.
- The plotted `PlottableLine` is modelled as a `GraphLine`.
- Compiler.java, LineStyle.java, AxisName.java and PlotType.java are not part of this model. Their constants are taken from the places that use them.
- The `toXML` methods and the other XML serialisation are not modelled.
- The Kiviat writer's normalisation and trigonometry, the regression analyses and the numeric derived-data functions are not modelled.
- The CSV tokenising done by Python's `csv` module is not modelled. The reader takes rows of cells.
- The `CommandFileWriter` scatter and bar-chart templates are not modelled.
- JavaText.ToLower: case mapping is ASCII only. `JavaText.ToUpper`, `JavaText.EqualsIgnoreCase`, `StringUtils.CapitaliseWords`, `StringUtils.NormaliseCamelCase`, `StringUtils.Closeness` and the version-name lookups in `PmtmVersion` and `SkampiVersion` map only `A`-`Z` and `a`-`z`. Java's Unicode case mapping is not modelled, so text with other letters may compare or convert differently.
- PmtmSqlValues.Stored: a float cell (a timer's `Value` and `Error`, a parameter's `DoubleValue`) keeps the exact value of the Python float. The server really stores its own reading of `str(f)`, which Python 2 rounds to 12 significant digits, so the stored and the written value may differ. An infinite float prints `inf`, which is not a SQL literal and fails on the server; the model's floats are finite reals and `ToSql` succeeds on every one of them.
- JavaText.CompareTo: strings are `seq<char>`, sequences of Unicode scalar values, not the UTF-16 code units of a Java `String` or the bytes of a Python 2 `str`. For text outside the Basic Multilingual Plane the model therefore gives other lengths and cut points (`Analysis.NotesTrimmed`, `ExceptionDialog.WrapLine`, `StringUtils.RepeatChar` and every other length or index), another order against the characters U+E000 to U+FFFF (`JavaText.CompareTo`), and other hash codes (`JavaText.StringHash`). The Python readers and writers agree with the model on ASCII text only.
- JavaText.ParseSigned: reads only the ASCII digits `0`-`9`. Java's `Integer.parseInt`, `Integer.valueOf` and `Long.parseLong` read each character with `Character.digit(c, 10)`, which takes every Unicode decimal digit, so `Integer.parseInt("٣")` is 3 in Java and fails in the model (`JavaText.ParseInt`, `JavaText.ParseLong`). The readers that check Java's ASCII-only `\d` first (`PmtmFactory.LongToken` and the SkaMPI result reader) are not affected; the ones listed next are.
- Rank.FromString: text made of non-ASCII decimal digits, which `Integer.parseInt` reads as a number, fails in the model instead of giving a numeric rank.
- Rank.ValueOf: text made of non-ASCII decimal digits fails in the model instead of giving a numeric rank.
- Value.ValueOf: an `Integer` value written with non-ASCII decimal digits fails in the model.
- PmtmFactory.GetRank: a rank token made of non-ASCII decimal digits fails in the model instead of giving a numeric rank.
- PmtmFactory.VersionPart: a version part made of non-ASCII decimal digits fails in the model.
- PmtmLoad.IntegerToken: an integer token made of non-ASCII decimal digits fails in the model.
- HpccFactory.ParamDatum: a parameter made of non-ASCII decimal digits is kept as a string in the model, where Java reads an integer.
- PmtmSql.Matching: the server's `name=literal` is modelled as exact equality of the stored value. The column collation is not modelled: MySQL's default collations ignore letter case, and the PAD SPACE ones also ignore trailing spaces, so the server may find a stored row (`Cray` for `CRAY`) where the model finds none and saves a second one. The same holds for `PmtmSql.FetchWith`, `PmtmSql.FetchOrSaveFinds` and the other lookups built on it.
- JavaNumber.ParseDouble: does not accept Java's hexadecimal floating-point literals such as `0x1p3`, which `Double.parseDouble` accepts. Such text fails in the model. The PMTM readers are not affected, because `FLOAT_REGEX` rejects it before parsing; the HPCC summary reader and `Value.ValueOf` are.

## Findings

| source | as written | input that shows it | evidently intended | confidence | as-written member | corrected member |
|---|---|---|---|---|---|---|
| results_app/src/uk/co/awe/pmat/datafiles/pmtm/PMTMFactory.java:157-168 | `parseDouble` accepts `+INF` by `FLOAT_REGEX` and then passes it to `Double.parseDouble`, which throws | the token `+INF` | `+INF` reads as positive infinity, like `INF` | not executed | PmtmFactory.PlusInfRejected | PmtmFactory.PmtmDouble |
| results_app/src/uk/co/awe/pmat/datafiles/pmtm/PMTMFactory.java:203-213 | the overhead line checks `FLOAT_REGEX` and then calls `Double.parseDouble` directly, which throws on `INF` | an overhead value of `INF` or `-INF` | the overhead reads infinities as the timer lines' private `parseDouble` does | not executed | PmtmFactory.CheckedParseDoubleRejectsInf | PmtmFactory.PmtmDouble |
| results_app/src/uk/co/awe/pmat/datafiles/pmtm/PMTMFactory.java:98-100 | a parameter value that matches `FLOAT_REGEX` goes straight to `Double.parseDouble`, which throws on `INF` | a parameter line whose value is `INF` or `-INF` | the parameter is the infinity of that sign | not executed | PmtmFactory.ParameterInfRejected | PmtmFactory.ParameterValue |
| results_app/src/uk/co/awe/pmat/datafiles/pmtm/PMTMFactory.java:400-403 | the guard `index > tokens.length` lets `index == tokens.length` through to `tokens[index]` | a processor line of five tokens, read at index 5 | a missing clock-speed token is a null clock speed | not executed | PmtmFactory.ClockSpeedAtLength | PmtmFactory.ClockSpeed |
| results_app/src/uk/co/awe/pmat/datafiles/pmtm/PMTMFactory.java:408-409 | a clock speed without a fraction is taken as MHz even when it says `GHz` | `3GHz` reads as 3 | `3GHz` reads as 3000 MHz, as `3.0GHz` does | not executed | PmtmFactory.WholeGhzUnscaled | PmtmFactory.WholeGhzValue |
| results_app/src/uk/co/awe/pmat/db/Run.java:370-391 | `equals` is not symmetric: a run without an id compares date, creator and privacy flag, and a run with an id compares ids only | a run without an id, and the same run given an id | an equivalence relation that agrees with `hashCode` | not executed | Run.EqualsAsWrittenAsymmetric | Run.EqualsEquivalence |
| sql/ImportPMTM/pmtm_sql.py:87-88 | `find_clause` writes `name=NULL` for a `None` key value, which matches no row, so `fetch_or_save` saves and then cannot fetch the saved row | a machine without a vendor, as in files of version 2.1.1 and earlier | a `None` key value is tested with `IS NULL` | not executed | PmtmSql.OldMachineNeverSaved | PmtmSql.OldMachineSaved |
| results_app/src/uk/co/awe/pmat/db/jdbc/JdbcUtils.java:202-204 | restrictions that no sub-run satisfies together give `1 = 1`, which admits every sub-run | two restrictions matching disjoint sets of sub-runs | an empty intersection admits no sub-run | not executed | JdbcUtils.DisjointRestrictionsAdmitAll | JdbcUtils.SubRunWhere |
| results_app/src/uk/co/awe/pmat/datafiles/pmtm/PMTMVersion.java:31 | version 0.3.0 is declared with the string `O.3.0`, with a capital letter O | a file reporting version `0.3.0` | the string `0.3.0` | not executed | PmtmVersion.ZeroThreeZeroRejected | PmtmVersion.ZeroThreeZeroAccepted |
