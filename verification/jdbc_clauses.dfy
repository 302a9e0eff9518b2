/** The clause builders of `JdbcTable` that read the column maps: qualified column names,
    `JOIN` clauses and `WHERE` comparisons. A lookup of an unknown field or of a join that is
    not declared dereferences `null` in the source; here it is a failure. */
module JdbcClauses {
  import opened Wrappers
  import JavaText
  import opened JdbcTable
  import opened JdbcMapping

  /** The comparators of a restriction. */
  datatype Comparator = EQ | GE | GT | LE | LT | NE

  /** The SQL operator of each comparator. */
  function Operator(c: Comparator): string {
    match c
    case EQ => "="
    case GE => ">="
    case GT => ">"
    case LE => "<="
    case LT => "<"
    case NE => "<>"
  }

  /** `tableColumn(name)`: the table's reference, a dot and the column of field `name`. */
  function TableColumn(t: Table, name: string): (r: Result<string>)
    ensures r.Success? <==> Lookup(t, name).Some?
    ensures r.Success? ==> r.value == Reference(t) + "." + Lookup(t, name).value.name
  {
    var c :- NotNull(Lookup(t, name));
    Success(Reference(t) + "." + c.name)
  }

  /** A `null` column from a map lookup, dereferenced. */
  function NotNull(o: Option<Column>): (r: Result<Column>)
    ensures r.Success? <==> o.Some?
    ensures r.Success? ==> r.value == o.value
  {
    if o.None? then Failure("NullPointerException") else Success(o.value)
  }

  /** An ordinary column's qualified name is what a default `select()` of it emits. */
  lemma TableColumnIsSelect(t: Table, name: string)
    requires Lookup(t, name).Some? && !IsParameterValue(Lookup(t, name).value)
    ensures TableColumn(t, name).Success?
    ensures TableColumn(t, name).value == Select(Lookup(t, name).value, None, None)
  {
    var c := Lookup(t, name).value;
    var i :| 0 <= i < |TableMap(t)| && TableMap(t)[i] == (name, c);
    TableMapColumn(t, i);
  }

  /** `this.joinLeft(table, tableRef)`: `table` under its alias, joined on the column of
      `table`'s join map that points at `this`, selected with its default reference, equal
      to the alias's `ID`. */
  function JoinLeft(self: Table, table: Table, tableRef: Option<string>): (r: Result<string>)
    ensures r.Success? <==> JoinColumn(table, self).Some?
  {
    var ref := tableRef.GetOr(Reference(table));
    var c :- NotNull(JoinColumn(table, self));
    Success(TableName(table) + " AS " + ref + " ON " + Select(c, None, None) + " = " + ref + ".ID")
  }

  /** `this.joinRight(table, tableRef)`: `table` under its alias, joined on the column of
      `table` that points at `this`, qualified by the alias, equal to this table's `ID`. */
  function JoinRight(self: Table, table: Table, tableRef: Option<string>): (r: Result<string>)
    ensures r.Success? <==> JoinColumn(self, table).Some?
  {
    var ref := tableRef.GetOr(Reference(table));
    var c :- NotNull(JoinColumn(self, table));
    Success(TableName(table) + " AS " + ref + " ON " + Select(c, Some(ref), None) + " = " + Reference(self) + ".ID")
  }

  /** A right join compares the joined table's foreign key, qualified by its alias, with the
      owner's id: the clause is the table, its alias, and `alias.Column = owner.ID`. */
  lemma JoinRightShape(self: Table, table: Table, ref: string)
    requires JoinColumn(self, table).Some?
    ensures JoinRight(self, table, Some(ref)).value
            == TableName(table) + " AS " + ref + " ON " + ref + "." + JoinColumn(self, table).value.name
               + " = " + Reference(self) + ".ID"
  {
    JoinColumnInTarget(self, table);
  }

  /** A left join compares the foreign key of `table`'s join column, qualified by this
      table's own reference, with the joined alias's id. */
  lemma JoinLeftShape(self: Table, table: Table, ref: string)
    requires JoinColumn(table, self).Some?
    ensures JoinLeft(self, table, Some(ref)).value
            == TableName(table) + " AS " + ref + " ON " + Reference(self) + "." + JoinColumn(table, self).value.name
               + " = " + ref + ".ID"
  {
    JoinColumnInTarget(table, self);
  }

  /** Joins have a direction: a sub-run joins its run on the left, not the other way. */
  lemma SubRunJoinsRun()
    ensures JoinLeft(SubRun, Run, None).Success? && JoinLeft(Run, SubRun, None).Failure?
    ensures JoinRight(Run, SubRun, None).Success? && JoinRight(SubRun, Run, None).Failure?
  {
  }

  /** The comparison text for a column named `column`: a null value tests for `NULL`, with
      `IS NULL` for `EQ` and `IS NOT NULL` for every other comparator; any other value is a
      `?` parameter compared with the comparator's operator. */
  function Comparison(column: string, isNull: bool, cmp: Comparator): (r: string)
    ensures JavaText.StartsWith(r, column + " ")
  {
    if isNull then
      if cmp == EQ then column + " IS NULL" else column + " IS NOT NULL"
    else
      column + " " + Operator(cmp) + " ?"
  }

  /** A comparison holds exactly one `?` more than its column name when the value is
      non-null and none more when it is null, so its parameters line up with the values
      bound. */
  lemma ComparisonMarks(column: string, isNull: bool, cmp: Comparator)
    ensures JavaText.CountOf('?', Comparison(column, isNull, cmp)) == JavaText.CountOf('?', column) + (if isNull then 0 else 1)
  {
    if isNull {
      var tail := if cmp == EQ then " IS NULL" else " IS NOT NULL";
      JavaText.CountOfAppend('?', column, tail);
      JavaText.CountOfAbsent('?', tail);
    } else {
      var tail := " " + Operator(cmp) + " ";
      assert Comparison(column, isNull, cmp) == column + tail + "?";
      JavaText.CountOfAppend('?', column + tail, "?");
      JavaText.CountOfAppend('?', column, tail);
      JavaText.CountOfAbsent('?', tail);
    }
  }

  /** `compare(name, value, comparator)`: the comparison of the bare column of field `name`,
      with no table qualifier. */
  function Compare<V>(t: Table, name: string, value: Option<V>, cmp: Comparator): (r: Result<string>)
    ensures r.Success? <==> Lookup(t, name).Some?
    ensures r.Success? ==> r.value == Comparison(Lookup(t, name).value.name, value.None?, cmp)
  {
    var c :- NotNull(Lookup(t, name));
    Success(Comparison(c.name, value.None?, cmp))
  }

  /** `equals(name, value)`: the `EQ` comparison. */
  function Equals<V>(t: Table, name: string, value: Option<V>): (r: Result<string>)
    ensures r == Compare(t, name, value, EQ)
  {
    Compare(t, name, value, EQ)
  }

  /** Equality with `null` is `IS NULL`; with a value it is `= ?`. */
  lemma EqualsForms<V>(t: Table, name: string, value: Option<V>)
    requires Lookup(t, name).Some?
    ensures var n := Lookup(t, name).value.name;
            Equals(t, name, value).value == (if value.None? then n + " IS NULL" else n + " = ?")
  {
  }
}
