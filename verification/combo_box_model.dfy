/** PMAT's typed `DefaultComboBoxModel`: a list of elements, an optional text header shown
    before anything is chosen, and the selection state machine between them. The header is
    compared with `equals` against selected items, so it is modelled as a value of the element
    type (`None` for no header); list-data events are left out and the selection action is
    reported as whether it fired. */
module ComboBoxModel {
  import opened Wrappers

  datatype Model<T> = Model(elements: seq<T>, header: Option<T>, selected: Option<T>,
                            showHeader: bool, headerSelected: bool)

  /** `resetSelection`: show and select the header if there is one; otherwise select the
      first element, if any. */
  function ResetSelection<T>(m: Model<T>): (r: Model<T>)
    ensures r.elements == m.elements && r.header == m.header
    ensures r.showHeader <==> m.header.Some?
    ensures r.headerSelected <==> m.header.Some?
    ensures r.selected == if m.header.None? && m.elements != [] then Some(m.elements[0]) else None
  {
    var show := m.header.Some?;
    Model(m.elements, m.header, if !show && m.elements != [] then Some(m.elements[0]) else None, show, show)
  }

  /** The constructor: the items, then `resetSelection`. */
  function New<T>(header: Option<T>, items: seq<T>): (r: Model<T>)
    ensures r.elements == items && r.header == header
    ensures r.headerSelected <==> header.Some?
    ensures header.Some? ==> GetSelectedElement(r) == None
    ensures header.None? && items != [] ==> GetSelectedElement(r) == Some(items[0])
    ensures header.None? && items == [] ==> !HasSelectedElement(r)
  {
    ResetSelection(Model(items, header, None, false, false))
  }

  /** `getSelectedElement`: nothing while the header is selected. */
  function GetSelectedElement<T>(m: Model<T>): (r: Option<T>)
    ensures m.headerSelected ==> r == None
    ensures !m.headerSelected ==> r == m.selected
  {
    if m.headerSelected then None else m.selected
  }

  /** `hasSelectedElement`. */
  predicate HasSelectedElement<T>(m: Model<T>) {
    !m.headerSelected && m.selected.Some?
  }

  /** An element is selected exactly when `getSelectedElement` returns one. */
  lemma HasSelectedIffElement<T>(m: Model<T>)
    ensures HasSelectedElement(m) <==> GetSelectedElement(m).Some?
  {
  }

  /** `getSelectedItem`: the header while it is selected, else the stored item. */
  function GetSelectedItem<T>(m: Model<T>): (r: Option<T>)
    ensures m.headerSelected ==> r == m.header
    ensures !m.headerSelected ==> r == GetSelectedElement(m)
  {
    if m.headerSelected then m.header else m.selected
  }

  function Offset<T>(m: Model<T>): (n: nat)
    ensures n <= 1
  {
    if m.showHeader then 1 else 0
  }

  /** `getSize`: the elements, plus one for a shown header. */
  function GetSize<T>(m: Model<T>): (n: nat)
    ensures n == |m.elements| || (m.showHeader && n == |m.elements| + 1)
  {
    |m.elements| + Offset(m)
  }

  /** `getElement(index)`: the element at a list index, counting a shown header as index 0;
      nothing for the header or an index out of range. */
  function GetElement<T>(m: Model<T>, index: int): (r: Option<T>)
    ensures r.Some? <==> Offset(m) <= index < GetSize(m)
  {
    if Offset(m) <= index < GetSize(m) then Some(m.elements[index - Offset(m)]) else None
  }

  /** `getElementAt(index)`: as `getElement`, nothing for the header's row. */
  function GetElementAt<T>(m: Model<T>, index: int): (r: Option<T>)
    ensures r == GetElement(m, index)
  {
    if m.showHeader && index == 0 then None else GetElement(m, index)
  }

  /** `List.indexOf`: the first position of `x`, or -1. */
  function ListIndexOf<T(==)>(xs: seq<T>, x: T): (r: int)
    ensures -1 <= r < |xs|
    ensures r == -1 <==> x !in xs
    ensures r >= 0 ==> xs[r] == x && forall j :: 0 <= j < r ==> xs[j] != x
  {
    if xs == [] then -1
    else if xs[0] == x then 0
    else
      var i := ListIndexOf(xs[1..], x);
      if i == -1 then -1 else i + 1
  }

  /** `getIndexOf(element)`: the list index, counting a shown header. */
  function GetIndexOf<T(==)>(m: Model<T>, element: T): (r: int)
    ensures element in m.elements ==> Offset(m) <= r < GetSize(m)
    ensures element !in m.elements ==> r == Offset(m) - 1
  {
    ListIndexOf(m.elements, element) + Offset(m)
  }

  /** Reading the model index by index lists the elements, and when they are distinct each
      element's index leads back to it. */
  lemma IndexRoundTrip<T>(m: Model<T>, index: int)
    requires Offset(m) <= index < GetSize(m)
    requires forall i, j :: 0 <= i < j < |m.elements| ==> m.elements[i] != m.elements[j]
    ensures GetElement(m, index) == Some(m.elements[index - Offset(m)])
    ensures GetIndexOf(m, GetElement(m, index).value) == index
  {
    var e := m.elements[index - Offset(m)];
    var k := ListIndexOf(m.elements, e);
    assert m.elements[k] == e;
  }

  /** `setSelectedItem(item)`: the header selects the header and keeps the stored item.
      Anything else clears the header selection, and, unless it equals the stored item
      (nothing never does), hides the header, is stored, and fires the selection action.
      Returns the model and whether the action fired. */
  function SetSelectedItem<T(==)>(m: Model<T>, item: Option<T>): (r: (Model<T>, bool))
    ensures r.0.elements == m.elements && r.0.header == m.header
    ensures item.Some? && item == m.header ==> r == (m.(headerSelected := true), false)
    ensures !(item.Some? && item == m.header) ==>
              && !r.0.headerSelected
              && (r.1 <==> item.None? || m.selected != item)
              && (r.1 ==> r.0.selected == item && !r.0.showHeader)
              && (!r.1 ==> r.0 == m.(headerSelected := false))
  {
    if item.Some? && item == m.header then (m.(headerSelected := true), false)
    else
      var n := m.(headerSelected := false);
      if (m.selected.None? && item.Some?) || !(m.selected.Some? && m.selected == item) then
        (n.(showHeader := false, selected := item), true)
      else (n, false)
  }

  /** Selecting the same element twice fires the action at most once. */
  lemma SelectTwiceFiresOnce<T>(m: Model<T>, e: T)
    ensures !SetSelectedItem(SetSelectedItem(m, Some(e)).0, Some(e)).1
    ensures Some(e) != m.header ==> GetSelectedElement(SetSelectedItem(m, Some(e)).0) == Some(e)
  {
  }

  /** Clearing the selection fires the action every time, even when nothing was selected. */
  lemma SelectNothingAlwaysFires<T>(m: Model<T>)
    requires m.header.Some?
    ensures SetSelectedItem(m, None).1
    ensures !HasSelectedElement(SetSelectedItem(m, None).0)
  {
  }

  /** `setSelectedElement(element)`. */
  function SetSelectedElement<T(==)>(m: Model<T>, element: Option<T>): (r: (Model<T>, bool))
    ensures r == SetSelectedItem(m, element)
  {
    SetSelectedItem(m, element)
  }

  /** `selectHeader()`: selecting the header text. Without a header this selects nothing. */
  function SelectHeader<T(==)>(m: Model<T>): (r: (Model<T>, bool))
    ensures m.header.Some? ==> r.0.headerSelected && r.0.selected == m.selected && !r.1
    ensures m.header.None? ==> r.1 && r.0.selected == None && !r.0.headerSelected
  {
    SetSelectedItem(m, m.header)
  }

  /** After selecting the header and then the element that was stored, the element is
      selected again without the action firing. */
  lemma HeaderThenBack<T>(m: Model<T>, e: T)
    requires m.header.Some? && Some(e) != m.header && m.selected == Some(e)
    ensures var back := SetSelectedItem(SelectHeader(m).0, Some(e));
            !back.1 && GetSelectedElement(back.0) == Some(e)
  {
  }

  /** `addElement(element)`: appends it, and selects it when it is the only element. */
  function AddElement<T(==)>(m: Model<T>, element: T): (r: (Model<T>, bool))
    ensures r.0.elements == m.elements + [element] && r.0.header == m.header
    ensures m.elements != [] ==> r == (m.(elements := m.elements + [element]), false)
  {
    var n := m.(elements := m.elements + [element]);
    if |n.elements| == 1 then SetSelectedElement(n, Some(element)) else (n, false)
  }

  /** The first element added to an empty model becomes the selected element, unless it is
      the header itself. */
  lemma FirstElementSelected<T>(m: Model<T>, e: T)
    requires m.elements == [] && Some(e) != m.header
    ensures GetSelectedElement(AddElement(m, e).0) == Some(e)
  {
  }

  /** `insertElementAt(element, index)`: inserts before the element at that list index,
      counting a shown header; an index outside the list fails. The selection is kept. */
  function InsertElementAt<T>(m: Model<T>, element: T, index: int): (r: Result<Model<T>>)
    ensures r.Success? <==> 0 <= index - Offset(m) <= |m.elements|
    ensures r.Success? ==>
              && |r.value.elements| == |m.elements| + 1
              && GetElement(r.value, index) == Some(element)
              && r.value.selected == m.selected
  {
    var k := index - Offset(m);
    if 0 <= k <= |m.elements| then Success(m.(elements := m.elements[..k] + [element] + m.elements[k..]))
    else Failure("IndexOutOfBoundsException")
  }

  /** `List.remove(element)`: drops its first occurrence, if any. */
  function RemoveFirst<T(==)>(xs: seq<T>, x: T): (r: seq<T>)
    ensures x in xs ==> |r| == |xs| - 1
    ensures x !in xs ==> r == xs
    ensures forall y :: y in r ==> y in xs
  {
    var i := ListIndexOf(xs, x);
    if i == -1 then xs else xs[..i] + xs[i + 1..]
  }

  /** `removeElement(element)`: a null element fails. If the element is the stored item, the
      selection first moves to the element before it, or, at index 0, to the element after
      it (nothing if it was alone); then its first occurrence is removed. */
  function RemoveElement<T(==)>(m: Model<T>, element: Option<T>): (r: Result<(Model<T>, bool)>)
    ensures element.None? <==> r.Failure?
    ensures r.Success? ==> r.value.0.elements == RemoveFirst(m.elements, element.value)
    ensures r.Success? && Some(element.value) != m.selected ==> r.value == (m.(elements := RemoveFirst(m.elements, element.value)), false)
  {
    if element.None? then Failure("NullPointerException")
    else
      var e := element.value;
      var index := GetIndexOf(m, e);
      var (n, fired) :=
        if Some(e) == m.selected then
          if index == 0 then SetSelectedElement(m, if GetSize(m) == 1 then None else GetElement(m, index + 1))
          else SetSelectedElement(m, GetElement(m, index - 1))
        else (m, false);
      Success((n.(elements := RemoveFirst(n.elements, e)), fired))
  }

  /** Removing the selected element from the middle of a list without a header selects the
      element before it. */
  lemma RemoveSelectedSelectsPrevious<T>(m: Model<T>, k: nat)
    requires !m.showHeader && 0 < k < |m.elements|
    requires forall i, j :: 0 <= i < j < |m.elements| ==> m.elements[i] != m.elements[j]
    requires m.selected == Some(m.elements[k]) && m.header != Some(m.elements[k - 1])
    ensures RemoveElement(m, Some(m.elements[k])).Success?
    ensures GetSelectedElement(RemoveElement(m, Some(m.elements[k])).value.0) == Some(m.elements[k - 1])
    ensures m.elements[k] !in RemoveElement(m, Some(m.elements[k])).value.0.elements
  {
    var e := m.elements[k];
    assert ListIndexOf(m.elements, e) == k;
    var r := RemoveFirst(m.elements, e);
    assert r == m.elements[..k] + m.elements[k + 1..];
    forall j | 0 <= j < |r|
      ensures r[j] != e
    {
      if j < k {
        assert r[j] == m.elements[j];
      } else {
        assert r[j] == m.elements[j + 1];
      }
    }
  }

  /** `removeAllElements()`: nothing happens on an empty model; otherwise the list is
      emptied and the selection reset. */
  function RemoveAllElements<T>(m: Model<T>): (r: Model<T>)
    ensures m.elements == [] ==> r == m
    ensures m.elements != [] ==> r.elements == [] && r.header == m.header
  {
    if m.elements == [] then m else ResetSelection(m.(elements := []))
  }

  /** Emptying a non-empty model leaves it as a freshly built empty one. */
  lemma RemoveAllIsNew<T>(m: Model<T>)
    requires m.elements != []
    ensures RemoveAllElements(m) == New(m.header, [])
  {
  }

  /** `addAllElements(items)`: appends them, and selects the first element if no header is
      shown and nothing is stored yet. */
  function AddAllElements<T(==)>(m: Model<T>, items: seq<T>): (r: (Model<T>, bool))
    ensures r.0.elements == m.elements + items && r.0.header == m.header
    ensures m.showHeader || m.selected.Some? || m.elements + items == [] ==> r == (m.(elements := m.elements + items), false)
  {
    var n := m.(elements := m.elements + items);
    if !n.showHeader && n.selected.None? && n.elements != [] then SetSelectedElement(n, GetElement(n, 0))
    else (n, false)
  }

  /** Filling an empty model without a header selects its first element. */
  lemma AddAllSelectsFirst<T>(m: Model<T>, items: seq<T>)
    requires m == New(None, []) && items != []
    ensures GetSelectedElement(AddAllElements(m, items).0) == Some(items[0])
    ensures AddAllElements(m, items).1
  {
    assert (m.elements + items)[0] == items[0];
  }
}
