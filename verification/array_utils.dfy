/** `ArrayUtils`: membership tests on arrays, the bracketed list of class names used in
    argument errors, and a read-only list view of an array. */
module ArrayUtils {
  import opened Wrappers
  import JavaText

  /** `arrayContains(array, element)`: scans for an entry equal to the element. */
  function Contains<T(==)>(items: seq<T>, element: T): (r: bool)
    ensures r <==> element in items
  {
    if items == [] then false
    else if items[0] == element then true
    else
      assert items == [items[0]] + items[1..];
      Contains(items[1..], element)
  }

  /** `arrayContains(outer, inner)`: every inner item is in the outer array, checked item by
      item and stopping at the first one missing. */
  function ContainsAll<T(==)>(outer: seq<T>, inner: seq<T>): (r: bool)
    ensures r <==> forall i :: 0 <= i < |inner| ==> inner[i] in outer
  {
    if inner == [] then true
    else if !Contains(outer, inner[0]) then false
    else
      assert forall i :: 1 <= i < |inner| ==> inner[i] == inner[1..][i - 1];
      ContainsAll(outer, inner[1..])
  }

  /** An array contains every sub-array of itself, the empty one included. */
  lemma ContainsOwnItems<T>(outer: seq<T>, inner: seq<T>)
    requires forall x :: x in inner ==> x in outer
    ensures ContainsAll(outer, inner)
  {
  }

  /** Containment is transitive. */
  lemma ContainsAllTransitive<T>(a: seq<T>, b: seq<T>, c: seq<T>)
    requires ContainsAll(a, b) && ContainsAll(b, c)
    ensures ContainsAll(a, c)
  {
    assert forall x :: x in b ==> x in a;
  }

  /** `toString(classArray)`: the simple names in brackets, separated by `", "`. */
  function ToString(names: seq<string>): (r: string)
    ensures JavaText.StartsWith(r, "[") && JavaText.EndsWith(r, "]")
  {
    "[" + JavaText.Join(names, ", ") + "]"
  }

  /** With names free of commas, the text has one comma fewer than there are names (none for
      an empty array), so the names can be counted back from it. */
  lemma {:induction false} ToStringCommas(names: seq<string>)
    requires forall k :: 0 <= k < |names| ==> forall i :: 0 <= i < |names[k]| ==> names[k][i] != ','
    ensures JavaText.CountOf(',', ToString(names)) == if names == [] then 0 else |names| - 1
  {
    JoinCommas(names);
    JavaText.CountOfAppend(',', "[", JavaText.Join(names, ", "));
    JavaText.CountOfAppend(',', "[" + JavaText.Join(names, ", "), "]");
  }

  /** The commas of a join are its separators. */
  lemma {:induction false} JoinCommas(names: seq<string>)
    requires forall k :: 0 <= k < |names| ==> forall i :: 0 <= i < |names[k]| ==> names[k][i] != ','
    ensures JavaText.CountOf(',', JavaText.Join(names, ", ")) == if names == [] then 0 else |names| - 1
  {
    if names == [] {
    } else if |names| == 1 {
      JavaText.CountOfAbsent(',', names[0]);
    } else {
      JoinCommas(names[1..]);
      JavaText.CountOfAbsent(',', names[0]);
      JavaText.CountOfAppend(',', names[0], ", ");
      JavaText.CountOfAppend(',', names[0] + ", ", JavaText.Join(names[1..], ", "));
    }
  }

  /** The list view of `asUnmodifiableList`: reads go to the array, writes are refused. */
  datatype ListView<T> = ListView(items: seq<T>)

  /** `get(index)`: the array entry; an index outside it is out of bounds. */
  function Get<T>(l: ListView<T>, index: int): (r: Result<T>)
    ensures r.Success? <==> 0 <= index < |l.items|
  {
    if 0 <= index < |l.items| then Success(l.items[index])
    else Failure("ArrayIndexOutOfBoundsException")
  }

  /** `size()`: the array length. */
  function Size<T>(l: ListView<T>): (n: nat) {
    |l.items|
  }

  /** `set(index, element)`: every write is refused. */
  function SetAt<T>(l: ListView<T>, index: int, element: T): (r: Result<ListView<T>>)
    ensures r.Failure?
  {
    Failure("UnsupportedOperationException")
  }

  /** Reading the view index by index gives the array back. */
  lemma ViewReadsArray<T>(items: seq<T>)
    ensures Size(ListView(items)) == |items|
    ensures forall i :: 0 <= i < |items| ==> Get(ListView(items), i) == Success(items[i])
  {
  }
}
