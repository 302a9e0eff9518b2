/** `GraphConfig`: the user's settings for a graph — label renames, the range and log flag of
    each axis, and the six options of the plot key. Change events are not modelled. */
module GraphConfig {
  import opened Wrappers
  import opened JavaNumber
  import Collections
  import Pair

  /** The four axes of a plot. */
  datatype AxisName = X1 | X2 | Y1 | Y2

  datatype KeyBox = Box | NoBox
  datatype KeyShow = On | Off
  datatype KeyHorizontalPosition = Left | Right | HorizontalCenter
  datatype KeyVerticalPosition = Top | Bottom | VerticalCenter
  datatype KeyPlacement = Inside | Outside
  datatype KeyOrientation = Vertical | Horizontal

  /** A key option as `setKeyOption` receives it: a value of one of the six key enums, or of
      some other enum class, named by its simple name. */
  datatype KeyOption =
    | BoxOption(box: KeyBox)
    | ShowOption(show: KeyShow)
    | HorizontalOption(horizontal: KeyHorizontalPosition)
    | VerticalOption(vertical: KeyVerticalPosition)
    | PlacementOption(placement: KeyPlacement)
    | OrientationOption(orientation: KeyOrientation)
    | OtherOption(className: string)

  /** The enum class `getKeyOption` is asked about. */
  datatype KeyClass = BoxClass | ShowClass | HorizontalClass | VerticalClass | PlacementClass
                    | OrientationClass | OtherClass(name: string)

  /** The class of an option value. */
  function ClassOf(o: KeyOption): KeyClass {
    match o
    case BoxOption(_) => BoxClass
    case ShowOption(_) => ShowClass
    case HorizontalOption(_) => HorizontalClass
    case VerticalOption(_) => VerticalClass
    case PlacementOption(_) => PlacementClass
    case OrientationOption(_) => OrientationClass
    case OtherOption(n) => OtherClass(n)
  }

  /** The configuration. `graphLabels` maps each displayed label to its rename;
      `oldGraphLabels` remembers every rename ever displayed. */
  datatype Config = Config(
    graphLabels: map<string, string>,
    oldGraphLabels: map<string, string>,
    axesMinimum: map<AxisName, Option<Dbl>>,
    axesMaximum: map<AxisName, Option<Dbl>>,
    axesLog: map<AxisName, bool>,
    keyShow: KeyShow,
    keyBox: KeyBox,
    keyHorizontal: KeyHorizontalPosition,
    keyVertical: KeyVerticalPosition,
    keyPlacement: KeyPlacement,
    keyOrientation: KeyOrientation)

  /** Every value of `AxisName`, as `AxisName.values()` lists them. */
  predicate IsAxis(a: AxisName) {
    a == X1 || a == X2 || a == Y1 || a == Y2
  }

  /** Every axis has an entry in each axis map, as the constructor puts them and no setter
      removes them. */
  predicate Valid(c: Config) {
    forall a: AxisName :: a in c.axesMinimum && a in c.axesMaximum && a in c.axesLog
  }

  /** `new GraphConfig()`: every axis unbounded and linear; the key shown, without a box, at
      the top right, inside the plot, vertical. */
  function New(): (c: Config)
    ensures Valid(c)
    ensures forall a: AxisName :: c.axesMinimum[a] == None && c.axesMaximum[a] == None && !c.axesLog[a]
    ensures c.keyShow == On && c.keyBox == NoBox && c.keyHorizontal == Right
    ensures c.keyVertical == Top && c.keyPlacement == Inside && c.keyOrientation == Vertical
    ensures c.graphLabels == map[] && c.oldGraphLabels == map[]
  {
    Config(map[], map[],
      map a | IsAxis(a) :: None,
      map a | IsAxis(a) :: None,
      map a | IsAxis(a) :: false,
      On, NoBox, Right, Top, Inside, Vertical)
  }

  // ---------------------------------------------------------------------------
  // Key options
  // ---------------------------------------------------------------------------

  /** `getKeyOption(cls)`: the stored option of that class; any other class throws. */
  function GetKeyOption(c: Config, cls: KeyClass): (r: Result<KeyOption>)
    ensures r.Success? <==> !cls.OtherClass?
    ensures r.Success? ==> ClassOf(r.value) == cls
  {
    match cls
    case BoxClass => Success(BoxOption(c.keyBox))
    case ShowClass => Success(ShowOption(c.keyShow))
    case HorizontalClass => Success(HorizontalOption(c.keyHorizontal))
    case VerticalClass => Success(VerticalOption(c.keyVertical))
    case PlacementClass => Success(PlacementOption(c.keyPlacement))
    case OrientationClass => Success(OrientationOption(c.keyOrientation))
    case OtherClass(_) => Failure("IllegalArgumentException")
  }

  /** `setKeyOption(value)`: stores the value as the option of its class; a value of any
      other class throws. */
  function SetKeyOption(c: Config, o: KeyOption): (r: Result<Config>)
    ensures r.Success? <==> !o.OtherOption?
    ensures r.Success? ==> GetKeyOption(r.value, ClassOf(o)) == Success(o)
    ensures r.Success? ==> forall k :: k != ClassOf(o) ==> GetKeyOption(r.value, k) == GetKeyOption(c, k)
    ensures r.Success? ==>
              && r.value.graphLabels == c.graphLabels && r.value.oldGraphLabels == c.oldGraphLabels
              && r.value.axesMinimum == c.axesMinimum && r.value.axesMaximum == c.axesMaximum
              && r.value.axesLog == c.axesLog
  {
    match o
    case BoxOption(v) => Success(c.(keyBox := v))
    case ShowOption(v) => Success(c.(keyShow := v))
    case HorizontalOption(v) => Success(c.(keyHorizontal := v))
    case VerticalOption(v) => Success(c.(keyVertical := v))
    case PlacementOption(v) => Success(c.(keyPlacement := v))
    case OrientationOption(v) => Success(c.(keyOrientation := v))
    case OtherOption(_) => Failure("IllegalArgumentException")
  }

  /** Setting an option and reading back another option's class sees the old value, and
      setting an option that is already stored changes nothing. */
  lemma SetKeyOptionIdempotent(c: Config, cls: KeyClass)
    requires !cls.OtherClass?
    ensures SetKeyOption(c, GetKeyOption(c, cls).value) == Success(c)
  {
  }

  // ---------------------------------------------------------------------------
  // Axes
  // ---------------------------------------------------------------------------

  /** `getAxisLog(axis)`. */
  function GetAxisLog(c: Config, a: AxisName): bool
    requires Valid(c)
  {
    c.axesLog[a]
  }

  /** `getAxisMinimum(axis)`. */
  function GetAxisMinimum(c: Config, a: AxisName): Option<Dbl>
    requires Valid(c)
  {
    c.axesMinimum[a]
  }

  /** `getAxisMaximum(axis)`. */
  function GetAxisMaximum(c: Config, a: AxisName): Option<Dbl>
    requires Valid(c)
  {
    c.axesMaximum[a]
  }

  /** `setAxisMinimum(axis, min)`: only that axis's minimum changes. */
  function SetAxisMinimum(c: Config, axis: AxisName, min: Option<Dbl>): (r: Config)
    requires Valid(c)
    ensures Valid(r)
    ensures GetAxisMinimum(r, axis) == min
    ensures forall a :: a != axis ==> GetAxisMinimum(r, a) == GetAxisMinimum(c, a)
    ensures r.axesMaximum == c.axesMaximum && r.axesLog == c.axesLog && r.graphLabels == c.graphLabels
  {
    c.(axesMinimum := c.axesMinimum[axis := min])
  }

  /** `setAxisMaximum(axis, max)`: only that axis's maximum changes. */
  function SetAxisMaximum(c: Config, axis: AxisName, max: Option<Dbl>): (r: Config)
    requires Valid(c)
    ensures Valid(r)
    ensures GetAxisMaximum(r, axis) == max
    ensures forall a :: a != axis ==> GetAxisMaximum(r, a) == GetAxisMaximum(c, a)
    ensures r.axesMinimum == c.axesMinimum && r.axesLog == c.axesLog && r.graphLabels == c.graphLabels
  {
    c.(axesMaximum := c.axesMaximum[axis := max])
  }

  /** `setAxisLog(axis, log)`: only that axis's log flag changes. */
  function SetAxisLog(c: Config, axis: AxisName, log: bool): (r: Config)
    requires Valid(c)
    ensures Valid(r)
    ensures GetAxisLog(r, axis) == log
    ensures forall a :: a != axis ==> GetAxisLog(r, a) == GetAxisLog(c, a)
    ensures r.axesMinimum == c.axesMinimum && r.axesMaximum == c.axesMaximum && r.graphLabels == c.graphLabels
  {
    c.(axesLog := c.axesLog[axis := log])
  }

  // ---------------------------------------------------------------------------
  // Labels
  // ---------------------------------------------------------------------------

  /** `getGraphLabel(displayName)`: the rename, or `null` for a label not displayed. */
  function GetGraphLabel(c: Config, displayName: string): (r: Option<string>)
    ensures r.Some? <==> displayName in c.graphLabels
  {
    if displayName in c.graphLabels then Some(c.graphLabels[displayName]) else None
  }

  /** `setGraphLabel(name, rename)`. */
  function SetGraphLabel(c: Config, name: string, rename: string): (r: Config)
    ensures GetGraphLabel(r, name) == Some(rename)
    ensures forall l :: l != name ==> GetGraphLabel(r, l) == GetGraphLabel(c, l)
  {
    c.(graphLabels := c.graphLabels[name := rename])
  }

  /** A label is renamed when its rename differs from it. */
  predicate Renamed(labels: map<string, string>, name: string) {
    name in labels && labels[name] != name
  }

  /** `getLabelRenames()`: a pair for each renamed label. `keys` is the order in which
      the label map iterates, each label once. */
  method GetLabelRenames(c: Config, keys: seq<string>) returns (renames: seq<Pair.Pair<string, string>>)
    requires Collections.Distinct(keys)
    requires forall k :: k in keys <==> k in c.graphLabels
    ensures forall p :: p in renames <==>
              p.first.Some? && Renamed(c.graphLabels, p.first.value)
              && p.second == Some(c.graphLabels[p.first.value])
    ensures Collections.Distinct(renames)
  {
    renames := [];
    var i := 0;
    while i < |keys|
      invariant 0 <= i <= |keys|
      invariant forall p :: p in renames <==>
                  p.first.Some? && p.first.value in keys[..i] && Renamed(c.graphLabels, p.first.value)
                  && p.second == Some(c.graphLabels[p.first.value])
      invariant Collections.Distinct(renames)
    {
      var key := keys[i];
      var value := c.graphLabels[key];
      assert forall j :: 0 <= j < i ==> keys[..i][j] != key;
      if key != value {
        renames := renames + [Pair.Pair(Some(key), Some(value))];
      }
      assert keys[..i + 1] == keys[..i] + [key];
      i := i + 1;
    }
    assert keys[..i] == keys;
  }

  /** `addLabelRenames(renames)`: each pair is put into the label map in turn, so a later
      pair for the same label wins. */
  function AddLabelRenames(c: Config, renames: seq<Pair.Pair<string, string>>): (r: Config)
    requires forall k :: 0 <= k < |renames| ==> renames[k].first.Some? && renames[k].second.Some?
    ensures r.graphLabels.Keys == c.graphLabels.Keys + set k | 0 <= k < |renames| :: renames[k].first.value
    decreases |renames|
  {
    if renames == [] then c
    else
      var last := renames[|renames| - 1];
      var r := SetGraphLabel(AddLabelRenames(c, renames[..|renames| - 1]), last.first.value, last.second.value);
      assert forall k :: 0 <= k < |renames| - 1 ==> renames[..|renames| - 1][k] == renames[k];
      r
  }

  /** Where the renames name a label, the last pair naming it gives its rename. */
  lemma {:induction false} AddLabelRenamesLastWins(c: Config, renames: seq<Pair.Pair<string, string>>, i: nat)
    requires forall k :: 0 <= k < |renames| ==> renames[k].first.Some? && renames[k].second.Some?
    requires i < |renames|
    requires forall k :: i < k < |renames| ==> renames[k].first != renames[i].first
    ensures GetGraphLabel(AddLabelRenames(c, renames), renames[i].first.value) == renames[i].second
    decreases |renames|
  {
    if i < |renames| - 1 {
      AddLabelRenamesLastWins(c, renames[..|renames| - 1], i);
    }
  }

  /** The renames of one configuration, added to a configuration that shows the same labels
      unrenamed, reproduce its labels. */
  lemma RenamesRestoreLabels(c: Config, d: Config, keys: seq<string>, renames: seq<Pair.Pair<string, string>>)
    requires Collections.Distinct(keys)
    requires forall k :: k in keys <==> k in c.graphLabels
    requires forall p :: p in renames <==>
               p.first.Some? && Renamed(c.graphLabels, p.first.value)
               && p.second == Some(c.graphLabels[p.first.value])
    requires Collections.Distinct(renames)
    requires d.graphLabels == map l | l in c.graphLabels :: l
    ensures AddLabelRenames(d, renames).graphLabels == c.graphLabels
  {
    var r := AddLabelRenames(d, renames);
    forall l | l in c.graphLabels
      ensures l in r.graphLabels && r.graphLabels[l] == c.graphLabels[l]
    {
      if Renamed(c.graphLabels, l) {
        RenamedLabelRestored(c, d, renames, l);
      } else {
        UntouchedLabel(d, renames, l);
      }
    }
    forall k | 0 <= k < |renames|
      ensures renames[k].first.value in c.graphLabels
    {
      assert renames[k] in renames;
    }
    assert r.graphLabels.Keys == c.graphLabels.Keys;
  }

  /** A renamed label gets back its rename: the one pair naming it is the last to. */
  lemma RenamedLabelRestored(c: Config, d: Config, renames: seq<Pair.Pair<string, string>>, l: string)
    requires forall p :: p in renames <==>
               p.first.Some? && Renamed(c.graphLabels, p.first.value)
               && p.second == Some(c.graphLabels[p.first.value])
    requires Collections.Distinct(renames)
    requires Renamed(c.graphLabels, l)
    ensures forall k :: 0 <= k < |renames| ==> renames[k].first.Some? && renames[k].second.Some?
    ensures GetGraphLabel(AddLabelRenames(d, renames), l) == Some(c.graphLabels[l])
  {
    forall k | 0 <= k < |renames| ensures renames[k].first.Some? && renames[k].second.Some? {
      assert renames[k] in renames;
    }
    var p := Pair.Pair(Some(l), Some(c.graphLabels[l]));
    assert p in renames;
    var i :| 0 <= i < |renames| && renames[i] == p;
    forall k | i < k < |renames|
      ensures renames[k].first != renames[i].first
    {
      assert renames[k] in renames;
    }
    AddLabelRenamesLastWins(d, renames, i);
  }

  /** A label that no pair names keeps the rename it had. */
  lemma {:induction false} UntouchedLabel(c: Config, renames: seq<Pair.Pair<string, string>>, l: string)
    requires forall k :: 0 <= k < |renames| ==> renames[k].first.Some? && renames[k].second.Some?
    requires forall k :: 0 <= k < |renames| ==> renames[k].first != Some(l)
    ensures GetGraphLabel(AddLabelRenames(c, renames), l) == GetGraphLabel(c, l)
    decreases |renames|
  {
    if renames != [] {
      UntouchedLabel(c, renames[..|renames| - 1], l);
    }
  }

  /** `updateGraphLabels(labels)`: every rename displayed so far is remembered, and the
      displayed labels become exactly `labels`, each with its remembered rename or else
      itself. */
  function UpdateGraphLabels(c: Config, labels: seq<string>): (r: Config)
    ensures r.oldGraphLabels == c.oldGraphLabels + c.graphLabels
    ensures r.graphLabels.Keys == set l | l in labels
    ensures forall l :: l in labels && l !in r.oldGraphLabels ==> r.graphLabels[l] == l
    ensures forall l :: l in c.graphLabels && l in labels ==> r.graphLabels[l] == c.graphLabels[l]
    ensures r.axesMinimum == c.axesMinimum && r.axesMaximum == c.axesMaximum && r.axesLog == c.axesLog
  {
    var seen := c.oldGraphLabels + c.graphLabels;
    c.(oldGraphLabels := seen,
       graphLabels := map l | l in labels :: if l in seen then seen[l] else l)
  }

  /** Updates one after another. */
  function UpdateAll(c: Config, updates: seq<seq<string>>): (r: Config)
    decreases |updates|
  {
    if updates == [] then c else UpdateAll(UpdateGraphLabels(c, updates[0]), updates[1..])
  }

  /** A rename is never forgotten: after `setGraphLabel(name, rename)`, however many label
      updates follow, whenever the label is displayed again it carries that rename. */
  lemma {:induction false} RenameRemembered(c: Config, name: string, rename: string, updates: seq<seq<string>>)
    requires name in c.oldGraphLabels ==> c.oldGraphLabels[name] == rename
    requires name in c.graphLabels && c.graphLabels[name] == rename
    ensures var r := UpdateAll(c, updates);
            name in r.graphLabels ==> r.graphLabels[name] == rename
    decreases |updates|
  {
    if updates != [] {
      var c1 := UpdateGraphLabels(c, updates[0]);
      assert c1.oldGraphLabels[name] == rename;
      if name in updates[0] {
        RenameRemembered(c1, name, rename, updates[1..]);
      } else {
        RenameStaysRemembered(c1, name, rename, updates[1..]);
      }
    }
  }

  /** The remembered rename survives updates that do not display the label. */
  lemma {:induction false} RenameStaysRemembered(c: Config, name: string, rename: string, updates: seq<seq<string>>)
    requires name in c.oldGraphLabels && c.oldGraphLabels[name] == rename
    requires name in c.graphLabels ==> c.graphLabels[name] == rename
    ensures var r := UpdateAll(c, updates);
            name in r.graphLabels ==> r.graphLabels[name] == rename
    decreases |updates|
  {
    if updates != [] {
      var c1 := UpdateGraphLabels(c, updates[0]);
      assert c1.oldGraphLabels[name] == rename;
      RenameStaysRemembered(c1, name, rename, updates[1..]);
    }
  }

  /** After `setGraphLabel`, a later update that shows the label again shows the rename. */
  lemma SetThenUpdate(c: Config, name: string, rename: string, updates: seq<seq<string>>)
    requires name !in c.oldGraphLabels || c.oldGraphLabels[name] == rename
    ensures var r := UpdateAll(SetGraphLabel(c, name, rename), updates);
            name in r.graphLabels ==> r.graphLabels[name] == rename
  {
    RenameRemembered(SetGraphLabel(c, name, rename), name, rename, updates);
  }
}
