/** A saved analysis: who made it and when, free-text notes, a privacy flag, and the
    graphs, derived data, restrictions and label renames it holds (kept abstract here as
    the type parameters `G`, `D` and `R`). */
module Analysis {
  import opened Wrappers
  import JavaText

  datatype Analysis<G, D, R> = Analysis(
    creator: Option<string>,
    date: JavaText.Date,
    notes: Option<string>,
    dataPrivate: bool,
    graphs: seq<G>,
    derivedData: seq<D>,
    restrictions: seq<R>,
    renames: seq<(string, string)>)

  /** The number of note characters a table shows. */
  const MaxNotesShown: nat := 20

  /** The constructor. The date is cloned, so a null date is a `NullPointerException`;
      the four lists are copied. */
  function New<G, D, R>(creator: Option<string>, date: Option<JavaText.Date>,
                        notes: Option<string>, dataPrivate: bool, graphs: seq<G>,
                        derivedData: seq<D>, restrictions: seq<R>,
                        renames: seq<(string, string)>): (r: Result<Analysis<G, D, R>>)
    ensures r.Success? <==> date.Some?
    ensures r.Success? ==> r.value.date == date.value && r.value.creator == creator
    ensures r.Success? ==> r.value.notes == notes && r.value.dataPrivate == dataPrivate
    ensures r.Success? ==> r.value.graphs == graphs && r.value.derivedData == derivedData
    ensures r.Success? ==> r.value.restrictions == restrictions && r.value.renames == renames
  {
    if date.None? then Failure("NullPointerException")
    else Success(Analysis(creator, date.value, notes, dataPrivate, graphs, derivedData,
                          restrictions, renames))
  }

  /** `getNotesTrimmed`: notes longer than the limit are cut to it and end in "...";
      shorter notes and null come back unchanged. */
  function NotesTrimmed<G, D, R>(a: Analysis<G, D, R>): (r: Option<string>)
    ensures r.None? <==> a.notes.None?
    ensures a.notes.Some? && |a.notes.value| <= MaxNotesShown ==> r == a.notes
    ensures a.notes.Some? && |a.notes.value| > MaxNotesShown ==>
              |r.value| == MaxNotesShown + 3 && JavaText.EndsWith(r.value, "...")
              && r.value[..MaxNotesShown] == a.notes.value[..MaxNotesShown]
  {
    if a.notes.Some? && |a.notes.value| > MaxNotesShown then
      var r := a.notes.value[..MaxNotesShown] + "...";
      assert r[|r| - 3..] == "...";
      Some(r)
    else a.notes
  }

  /** The shown notes are never longer than the limit plus the ellipsis, and always begin
      with the notes themselves up to the limit. */
  lemma NotesTrimmedBound<G, D, R>(a: Analysis<G, D, R>)
    requires a.notes.Some?
    ensures |NotesTrimmed(a).value| <= MaxNotesShown + 3
    ensures var k := if |a.notes.value| < MaxNotesShown then |a.notes.value| else MaxNotesShown;
            NotesTrimmed(a).value[..k] == a.notes.value[..k]
  {
  }

  datatype Cell = TextCell(text: Option<string>) | DateCell(date: JavaText.Date)

  /** `TABLE_COLUMN_NAMES`. */
  const TableColumnNames: seq<string> := ["Creator", "Date", "Notes"]

  /** `asTableRow`: the creator, the date and the trimmed notes, one cell per column. */
  function AsTableRow<G, D, R>(a: Analysis<G, D, R>): (row: seq<Cell>)
    ensures |row| == |TableColumnNames|
    ensures row[0] == TextCell(a.creator) && row[1] == DateCell(a.date)
    ensures row[2] == TextCell(NotesTrimmed(a))
  {
    [TextCell(a.creator), DateCell(a.date), TextCell(NotesTrimmed(a))]
  }

  /** `equals`: the creator, the date and the notes; everything else is ignored. */
  predicate Equals<G, D, R>(a: Analysis<G, D, R>, b: Analysis<G, D, R>) {
    a.creator == b.creator && a.date == b.date && a.notes == b.notes
  }

  /** `hashCode`, over the same three fields, in 32-bit arithmetic. */
  function HashCode<G, D, R>(a: Analysis<G, D, R>): (h: int)
    ensures JavaText.IsInt32(h)
  {
    FieldsHash(a.creator, a.date, a.notes)
  }

  function FieldsHash(creator: Option<string>, date: JavaText.Date, notes: Option<string>): (h: int)
    ensures JavaText.IsInt32(h)
  {
    var h1 := JavaText.Wrap32(53 * 7 + (if creator.Some? then JavaText.StringHash(creator.value) else 0));
    var h2 := JavaText.Wrap32(53 * h1 + JavaText.LongHash(date));
    JavaText.Wrap32(53 * h2 + (if notes.Some? then JavaText.StringHash(notes.value) else 0))
  }

  /** Equality is an equivalence, and equal analyses hash alike. */
  lemma EqualsHashCode<G, D, R>(a: Analysis<G, D, R>, b: Analysis<G, D, R>, c: Analysis<G, D, R>)
    ensures Equals(a, a) && (Equals(a, b) ==> Equals(b, a))
    ensures Equals(a, b) && Equals(b, c) ==> Equals(a, c)
    ensures Equals(a, b) ==> HashCode(a) == HashCode(b)
  {
  }

  /** Analyses that differ only in privacy, graphs, derived data, restrictions or renames
      are equal. */
  lemma EqualsIgnoresContents<G, D, R>(a: Analysis<G, D, R>, p: bool, g: seq<G>, d: seq<D>,
                                       r: seq<R>, n: seq<(string, string)>)
    ensures Equals(a, a.(dataPrivate := p, graphs := g, derivedData := d, restrictions := r,
                         renames := n))
  {
  }

  /** `compareTo`: by creator, then by date. A null creator on either side is a
      `NullPointerException`. */
  function CompareTo<G, D, R>(a: Analysis<G, D, R>, b: Analysis<G, D, R>): (r: Result<int>)
    ensures r.Success? <==> a.creator.Some? && b.creator.Some?
    ensures r.Success? ==> (r.value == 0 <==> a.creator == b.creator && a.date == b.date)
    ensures r.Success? && a.creator == b.creator ==> (r.value < 0 <==> a.date < b.date)
  {
    if a.creator.None? || b.creator.None? then Failure("NullPointerException")
    else
      var c := JavaText.CompareTo(a.creator.value, b.creator.value);
      if c == 0 then Success(JavaText.CompareLong(a.date, b.date)) else Success(c)
  }

  lemma CompareToAntisymmetric<G, D, R>(a: Analysis<G, D, R>, b: Analysis<G, D, R>)
    requires a.creator.Some? && b.creator.Some?
    ensures CompareTo(b, a).value < 0 <==> CompareTo(a, b).value > 0
  {
    JavaText.CompareToAntisymmetric(a.creator.value, b.creator.value);
  }
}
