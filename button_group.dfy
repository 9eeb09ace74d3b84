/** Button groups (`MButtonGroupBase` and its push, check-box, radio, tool and block
    variants): an ordered list of registered buttons, each with a logical id, a checked
    flag and a position tag, over the bookkeeping of a toolkit button group.

    The toolkit's button group is modelled by `Registry`: its ordered button list and the
    button it currently regards as checked. Its behaviour (automatic ids, exclusivity,
    "cannot uncheck the checked button of an exclusive group", a button that is not
    checkable ignoring `setChecked`) is written out in `SetChecked`, `Added` and
    `Removed`. */
module ButtonGroup {
  import opened Common

  type Handle = nat

  /** A value stored in a button's description dictionary. */
  datatype PropValue =
    | NoValue
    | Text(s: string)
    | Flag(b: bool)
    | Number(n: int)
    | IconRef(icon: nat)
    | Callback(slot: nat)

  /** Python truthiness: what `if data_dict.get(prop):` tests. */
  predicate Truthy(v: PropValue)
  {
    match v
    case NoValue => false
    case Text(s) => s != ""
    case Flag(b) => b
    case Number(n) => n != 0
    case IconRef(_) => true
    case Callback(_) => true
  }

  /** `d.get(key)`. */
  function Get(d: map<string, PropValue>, key: string): PropValue
  {
    if key in d then d[key] else NoValue
  }

  /** What `add_button` accepts: a bare string, an icon, or a description dictionary. */
  datatype ButtonSpec = TextSpec(text: string) | IconSpec(icon: nat) | DictSpec(dict: map<string, PropValue>)

  /** The first step of `add_button`: a string becomes `{"text": s}`, an icon `{"icon": i}`. */
  function Normalise(spec: ButtonSpec): map<string, PropValue>
  {
    match spec
    case TextSpec(s) => map["text" := Text(s)]
    case IconSpec(i) => map["icon" := IconRef(i)]
    case DictSpec(d) => d
  }

  /** The styling tag `set_button_list` gives each button. */
  datatype Position = Unplaced | Left | Center | Right

  /** The tool-button display modes chosen by `create_button`. */
  datatype DisplayMode = DefaultMode | IconOnly | TextOnly | TextBesideIcon

  /** A button as the group holds it: its widget handle, the id it is registered under,
      its Qt properties, checkable and checked flags, and the styling chosen for it. */
  datatype Button = Button(
    handle: Handle,
    id: int,
    props: map<string, PropValue>,
    checkable: bool,
    checked: bool,
    mode: DisplayMode,
    svg: PropValue,
    size: Option<int>,
    position: Position)

  /** `button.text()`. */
  function ButtonText(b: Button): string
  {
    if "text" in b.props && b.props["text"].Text? then b.props["text"].s else ""
  }

  /** The five group classes. */
  datatype GroupKind = PushGroup | CheckBoxGroup | RadioGroup | ToolGroup(exclusive: bool) | BlockGroup

  /** The exclusivity each class's constructor sets on its toolkit group. */
  function Exclusive(kind: GroupKind): bool
  {
    match kind
    case PushGroup => false
    case CheckBoxGroup => false
    case RadioGroup => true
    case ToolGroup(e) => e
    case BlockGroup => true
  }

  /** Group kinds whose buttons are checkable from creation: check boxes, radio buttons
      and block buttons. */
  predicate CheckableKind(kind: GroupKind)
  {
    kind.CheckBoxGroup? || kind.RadioGroup? || kind.BlockGroup?
  }

  /** The display mode tool and block buttons get from their description. */
  function ToolMode(d: map<string, PropValue>): (m: DisplayMode)
    ensures m == TextBesideIcon <==> Truthy(Get(d, "text")) && (Truthy(Get(d, "svg")) || Truthy(Get(d, "icon")))
    ensures m == TextOnly <==> Truthy(Get(d, "text")) && !Truthy(Get(d, "svg")) && !Truthy(Get(d, "icon"))
    ensures m == IconOnly <==> !Truthy(Get(d, "text"))
  {
    if Truthy(Get(d, "text")) then
      (if Truthy(Get(d, "svg")) || Truthy(Get(d, "icon")) then TextBesideIcon else TextOnly)
    else IconOnly
  }

  /** `create_button` of each group class, before `add_button` copies properties. */
  function CreateButton(kind: GroupKind, d: map<string, PropValue>, handle: Handle, largeSize: int): (b: Button)
    ensures b.handle == handle && b.props == map[] && !b.checked && b.position == Unplaced
    ensures b.checkable <==> CheckableKind(kind)
    ensures b.mode == if kind.ToolGroup? || kind.BlockGroup? then ToolMode(d) else DefaultMode
    ensures b.svg == if (kind.ToolGroup? || kind.BlockGroup?) && Truthy(Get(d, "svg")) then Get(d, "svg") else NoValue
    ensures b.size == if kind.BlockGroup? then Some(largeSize) else None
  {
    var svg := if Truthy(Get(d, "svg")) then Get(d, "svg") else NoValue;
    match kind
    case PushGroup => Button(handle, 0, map[], false, false, DefaultMode, NoValue, None, Unplaced)
    case CheckBoxGroup => Button(handle, 0, map[], true, false, DefaultMode, NoValue, None, Unplaced)
    case RadioGroup => Button(handle, 0, map[], true, false, DefaultMode, NoValue, None, Unplaced)
    case ToolGroup(_) => Button(handle, 0, map[], false, false, ToolMode(d), svg, None, Unplaced)
    case BlockGroup => Button(handle, 0, map[], true, false, ToolMode(d), svg, Some(largeSize), Unplaced)
  }

  /** The description keys `add_button` copies, in the order it copies them. */
  const CopiedNames: seq<string> := ["text", "icon", "data", "checked", "shortcut", "tooltip", "checkable"]

  /** The property a description key is stored under: "tooltip" becomes "toolTip". */
  function PropertyKey(name: string): string
  {
    if name == "tooltip" then "toolTip" else name
  }

  /** One round of the copy loop: a truthy value is set as a property under
      `PropertyKey(name)`; "checked" goes through `setChecked(True)`, which a button that
      is not checkable ignores, and "checkable" makes the button checkable. */
  function ApplyProp(b: Button, d: map<string, PropValue>, name: string): Button
  {
    var v := Get(d, name);
    if !Truthy(v) then b
    else if name == "checked" then b.(checked := b.checked || b.checkable)
    else if name == "checkable" then b.(checkable := true)
    else b.(props := b.props[PropertyKey(name) := v])
  }

  /** The copy loop over the keys `names`, in order. */
  function CopyProps(b: Button, d: map<string, PropValue>, names: seq<string>): Button
    decreases |names|
  {
    if names == [] then b
    else ApplyProp(CopyProps(b, d, names[..|names| - 1]), d, names[|names| - 1])
  }

  /** `m[key := v]` when `v` is truthy, else `m`. */
  function SetIfTruthy(m: map<string, PropValue>, key: string, v: PropValue): map<string, PropValue>
  {
    if Truthy(v) then m[key := v] else m
  }

  /** The property keys the copy loop may set. */
  const CopiedKeys: set<string> := {"text", "icon", "data", "shortcut", "toolTip"}

  /** The description key a property is read from. */
  function SourceKey(k: string): string
  {
    if k == "toolTip" then "tooltip" else k
  }

  /** The properties the copy loop sets: every truthy one of text, icon, data, shortcut
      and tooltip, the latter stored under "toolTip". */
  function TruthyCopies(d: map<string, PropValue>): map<string, PropValue>
  {
    map k | k in CopiedKeys && Truthy(Get(d, SourceKey(k))) :: Get(d, SourceKey(k))
  }

  lemma ApplyPropEffect(b: Button, d: map<string, PropValue>, name: string)
    ensures var r := ApplyProp(b, d, name);
      && r.props == (if name != "checked" && name != "checkable" then SetIfTruthy(b.props, PropertyKey(name), Get(d, name)) else b.props)
      && r.checkable == (b.checkable || (name == "checkable" && Truthy(Get(d, name))))
      && r.checked == (b.checked || (name == "checked" && Truthy(Get(d, name)) && b.checkable))
      && r.(props := b.props, checkable := b.checkable, checked := b.checked) == b
  {
  }

  lemma CopyPropsUnfold(b: Button, d: map<string, PropValue>)
    ensures CopyProps(b, d, CopiedNames)
         == ApplyProp(ApplyProp(ApplyProp(ApplyProp(ApplyProp(ApplyProp(ApplyProp(b, d,
              "text"), d, "icon"), d, "data"), d, "checked"), d, "shortcut"), d, "tooltip"), d, "checkable")
  {
    var n := CopiedNames;
    assert n[..1][..0] == [];
    assert n[..2][..1] == n[..1];
    assert n[..3][..2] == n[..2];
    assert n[..4][..3] == n[..3];
    assert n[..5][..4] == n[..4];
    assert n[..6][..5] == n[..5];
    assert n[..7][..6] == n[..6];
    assert n[..7] == n;
    assert n[..1][0] == "text" && n[..2][1] == "icon" && n[..3][2] == "data" && n[..4][3] == "checked";
    assert n[..5][4] == "shortcut" && n[..6][5] == "tooltip" && n[..7][6] == "checkable";
    var c1 := CopyProps(b, d, n[..1]);
    assert CopyProps(b, d, n[..1][..0]) == b;
    assert c1 == ApplyProp(b, d, "text");
    var c2 := CopyProps(b, d, n[..2]);
    assert c2 == ApplyProp(c1, d, "icon");
    var c3 := CopyProps(b, d, n[..3]);
    assert c3 == ApplyProp(c2, d, "data");
    var c4 := CopyProps(b, d, n[..4]);
    assert c4 == ApplyProp(c3, d, "checked");
    var c5 := CopyProps(b, d, n[..5]);
    assert c5 == ApplyProp(c4, d, "shortcut");
    var c6 := CopyProps(b, d, n[..6]);
    assert c6 == ApplyProp(c5, d, "tooltip");
    assert CopyProps(b, d, n[..7]) == ApplyProp(c6, d, "checkable");
  }

  lemma SetIfTruthyAt(m: map<string, PropValue>, key: string, v: PropValue, k: string)
    ensures k in SetIfTruthy(m, key, v) <==> k in m || (k == key && Truthy(v))
    ensures k in SetIfTruthy(m, key, v) ==> SetIfTruthy(m, key, v)[k] == if k == key && Truthy(v) then v else m[k]
  {
  }

  lemma TruthyCopiesAsUpdates(m: map<string, PropValue>, d: map<string, PropValue>)
    ensures SetIfTruthy(SetIfTruthy(SetIfTruthy(SetIfTruthy(SetIfTruthy(m,
              "text", Get(d, "text")), "icon", Get(d, "icon")), "data", Get(d, "data")),
              "shortcut", Get(d, "shortcut")), "toolTip", Get(d, "tooltip"))
         == m + TruthyCopies(d)
  {
    var m1 := SetIfTruthy(m, "text", Get(d, "text"));
    var m2 := SetIfTruthy(m1, "icon", Get(d, "icon"));
    var m3 := SetIfTruthy(m2, "data", Get(d, "data"));
    var m4 := SetIfTruthy(m3, "shortcut", Get(d, "shortcut"));
    var m5 := SetIfTruthy(m4, "toolTip", Get(d, "tooltip"));
    var t := TruthyCopies(d);
    var rhs := m + t;
    forall k ensures (k in m5 <==> k in rhs) && (k in m5 ==> m5[k] == rhs[k]) {
      SetIfTruthyAt(m, "text", Get(d, "text"), k);
      SetIfTruthyAt(m1, "icon", Get(d, "icon"), k);
      SetIfTruthyAt(m2, "data", Get(d, "data"), k);
      SetIfTruthyAt(m3, "shortcut", Get(d, "shortcut"), k);
      SetIfTruthyAt(m4, "toolTip", Get(d, "tooltip"), k);
      assert k in t <==> k in CopiedKeys && Truthy(Get(d, SourceKey(k)));
    }
    assert m5 == rhs;
  }

  /** What the copy loop of `add_button` does: only truthy values are copied, tooltip under
      "toolTip"; the button becomes checkable iff it was or "checkable" is truthy; and,
      because "checked" is copied before "checkable", it becomes checked only when it was
      already checkable before the loop. Nothing else about the button changes. */
  lemma CopiedPropsEffect(b: Button, d: map<string, PropValue>)
    ensures var r := CopyProps(b, d, CopiedNames);
      && r.props == b.props + TruthyCopies(d)
      && r.checkable == (b.checkable || Truthy(Get(d, "checkable")))
      && r.checked == (b.checked || (b.checkable && Truthy(Get(d, "checked"))))
      && r.(props := b.props, checkable := b.checkable, checked := b.checked) == b
  {
    CopyPropsUnfold(b, d);
    var b1 := ApplyProp(b, d, "text");
    var b2 := ApplyProp(b1, d, "icon");
    var b3 := ApplyProp(b2, d, "data");
    var b4 := ApplyProp(b3, d, "checked");
    var b5 := ApplyProp(b4, d, "shortcut");
    var b6 := ApplyProp(b5, d, "tooltip");
    var b7 := ApplyProp(b6, d, "checkable");
    ApplyPropEffect(b, d, "text");
    ApplyPropEffect(b1, d, "icon");
    ApplyPropEffect(b2, d, "data");
    ApplyPropEffect(b3, d, "checked");
    ApplyPropEffect(b4, d, "shortcut");
    ApplyPropEffect(b5, d, "tooltip");
    ApplyPropEffect(b6, d, "checkable");
    TruthyCopiesAsUpdates(b.props, d);
  }

  /** The button `add_button` builds from a normalised description, before it is
      registered: created by the group class, tagged with the orientation, properties
      copied. */
  function NewButton(kind: GroupKind, orientation: string, d: map<string, PropValue>, handle: Handle, largeSize: int): Button
  {
    var b := CreateButton(kind, d, handle, largeSize);
    CopyProps(b.(props := b.props["combine" := Text(orientation)]), d, CopiedNames)
  }

  /** The text of the button built from a description. */
  function SpecText(spec: ButtonSpec): string
  {
    var t := Get(Normalise(spec), "text");
    if Truthy(t) && t.Text? then t.s else ""
  }

  /** A bare string becomes the button's text, an icon its icon; a dictionary's truthy
      text becomes the text. The combine tag is the group's orientation. */
  lemma NewButtonFromSpec(kind: GroupKind, orientation: string, spec: ButtonSpec, handle: Handle, largeSize: int)
    ensures var b := NewButton(kind, orientation, Normalise(spec), handle, largeSize);
      && ButtonText(b) == SpecText(spec)
      && (spec.TextSpec? ==> ButtonText(b) == spec.text)
      && (spec.IconSpec? ==> "icon" in b.props && b.props["icon"] == IconRef(spec.icon) && "text" !in b.props)
      && "combine" in b.props && b.props["combine"] == Text(orientation)
      && b.handle == handle
  {
    var d := Normalise(spec);
    var b0 := CreateButton(kind, d, handle, largeSize);
    CopiedPropsEffect(b0.(props := b0.props["combine" := Text(orientation)]), d);
  }

  /** A button of a tool or push group is not checkable when created, so a description
      holding both "checked" and "checkable" yields a checkable but unchecked button:
      "checked" is copied first and ignored. */
  lemma CheckedBeforeCheckable(kind: GroupKind, orientation: string, handle: Handle, largeSize: int)
    requires kind.ToolGroup? || kind.PushGroup?
    ensures var b := NewButton(kind, orientation, map["checked" := Flag(true), "checkable" := Flag(true)], handle, largeSize);
      b.checkable && !b.checked
  {
    var d := map["checked" := Flag(true), "checkable" := Flag(true)];
    var b0 := CreateButton(kind, d, handle, largeSize);
    CopiedPropsEffect(b0.(props := b0.props["combine" := Text(orientation)]), d);
  }

  /** Check boxes, radio and block buttons get checked from a truthy "checked". */
  lemma CheckedWhenCheckable(kind: GroupKind, orientation: string, d: map<string, PropValue>, handle: Handle, largeSize: int)
    requires CheckableKind(kind)
    ensures var b := NewButton(kind, orientation, d, handle, largeSize);
      b.checkable && (b.checked <==> Truthy(Get(d, "checked")))
  {
    var b0 := CreateButton(kind, d, handle, largeSize);
    CopiedPropsEffect(b0.(props := b0.props["combine" := Text(orientation)]), d);
  }

  /** The display mode and size of a block button: text beside icon when there is text
      and an svg or icon, text only with text alone, icon only without text; always large. */
  lemma BlockButtonStyle(orientation: string, d: map<string, PropValue>, handle: Handle, largeSize: int)
    ensures var b := NewButton(BlockGroup, orientation, d, handle, largeSize);
      && b.checkable
      && b.size == Some(largeSize)
      && b.mode == ToolMode(d)
  {
    var b0 := CreateButton(BlockGroup, d, handle, largeSize);
    CopiedPropsEffect(b0.(props := b0.props["combine" := Text(orientation)]), d);
  }

  // ---------------------------------------------------------------------------
  // The toolkit button group

  /** The toolkit group: its buttons in insertion order and the button it regards as
      checked (`checkedButton`). */
  datatype Registry = Registry(buttons: seq<Button>, checkedButton: Option<Handle>)

  function Handles(bs: seq<Button>): (hs: seq<Handle>)
    ensures |hs| == |bs|
    ensures forall i :: 0 <= i < |bs| ==> hs[i] == bs[i].handle
  {
    seq(|bs|, i requires 0 <= i < |bs| => bs[i].handle)
  }

  predicate DistinctHandles(bs: seq<Button>)
  {
    forall i, j :: 0 <= i < j < |bs| ==> bs[i].handle != bs[j].handle
  }

  /** Position of the button with handle `h`, or -1. */
  function IndexOfHandle(bs: seq<Button>, h: Handle): (k: int)
    ensures -1 <= k < |bs|
    ensures k >= 0 ==> bs[k].handle == h && forall i :: 0 <= i < k ==> bs[i].handle != h
    ensures k == -1 ==> forall i :: 0 <= i < |bs| ==> bs[i].handle != h
  {
    if |bs| == 0 then -1
    else if bs[|bs| - 1].handle == h && IndexOfHandle(bs[..|bs| - 1], h) == -1 then |bs| - 1
    else IndexOfHandle(bs[..|bs| - 1], h)
  }

  /** `button(id)`: position of the first button registered under `id`, or -1. */
  function IndexOfId(bs: seq<Button>, id: int): (k: int)
    ensures -1 <= k < |bs|
    ensures k >= 0 ==> bs[k].id == id && forall i :: 0 <= i < k ==> bs[i].id != id
    ensures k == -1 ==> forall i :: 0 <= i < |bs| ==> bs[i].id != id
  {
    if |bs| == 0 then -1
    else if bs[|bs| - 1].id == id && IndexOfId(bs[..|bs| - 1], id) == -1 then |bs| - 1
    else IndexOfId(bs[..|bs| - 1], id)
  }

  /** The smallest registered id. */
  function MinId(bs: seq<Button>): (m: int)
    requires bs != []
    ensures forall i :: 0 <= i < |bs| ==> m <= bs[i].id
    ensures exists i :: 0 <= i < |bs| && m == bs[i].id
  {
    if |bs| == 1 then bs[0].id
    else
      var m := MinId(bs[1..]);
      assert forall i :: 1 <= i < |bs| ==> bs[1..][i - 1] == bs[i];
      if bs[0].id <= m then bs[0].id else m
  }

  /** The id the toolkit group assigns when none is given: one below the smallest id in
      use, or -2 in an empty group. */
  function FreshId(bs: seq<Button>): int
  {
    if bs == [] then -2 else MinId(bs) - 1
  }

  /** The id `add_button` registers a button under: the given index, or a fresh id when
      none is given (an index of -1 also asks the toolkit group for a fresh id). */
  function AssignedId(r: Registry, index: Option<int>): (id: int)
    ensures index.Some? && index.value != -1 ==> id == index.value
    ensures index.None? || index.value == -1 ==> forall i :: 0 <= i < |r.buttons| ==> r.buttons[i].id != id
  {
    if index.None? || index.value == -1 then FreshId(r.buttons) else index.value
  }

  /** Invariant of the toolkit group: distinct buttons; the checked button, when there is
      one, is a member and is checked; in an exclusive group every checked button is the
      checked button. */
  ghost predicate RegistryValid(r: Registry, exclusive: bool)
  {
    && DistinctHandles(r.buttons)
    && (r.checkedButton.Some? ==>
          exists i :: 0 <= i < |r.buttons| && r.buttons[i].handle == r.checkedButton.value && r.buttons[i].checked)
    && (exclusive ==>
          forall i :: 0 <= i < |r.buttons| && r.buttons[i].checked ==> r.checkedButton == Some(r.buttons[i].handle))
  }

  /** An exclusive group never has two checked buttons. */
  lemma ExclusiveAtMostOne(r: Registry, i: int, j: int)
    requires RegistryValid(r, true)
    requires 0 <= i < |r.buttons| && 0 <= j < |r.buttons|
    requires r.buttons[i].checked && r.buttons[j].checked
    ensures i == j
  {
  }

  /** `checkedId()`: the id of the checked button, or -1. */
  function CheckedIdOf(r: Registry): (id: int)
    ensures r.checkedButton.None? ==> id == -1
    ensures id != -1 ==> exists i :: 0 <= i < |r.buttons| && Some(r.buttons[i].handle) == r.checkedButton && r.buttons[i].id == id
    ensures DistinctHandles(r.buttons) ==>
      forall i :: 0 <= i < |r.buttons| && Some(r.buttons[i].handle) == r.checkedButton ==> id == r.buttons[i].id
  {
    if r.checkedButton.None? then -1
    else
      var k := IndexOfHandle(r.buttons, r.checkedButton.value);
      if k == -1 then -1 else r.buttons[k].id
  }

  /** The first checked button other than `previous` (the toolkit's `detectCheckedButton`
      in a non-exclusive group). */
  function Detect(bs: seq<Button>, previous: Handle): (c: Option<Handle>)
    ensures c.Some? ==> exists i :: 0 <= i < |bs| && bs[i].handle == c.value && bs[i].checked && bs[i].handle != previous
  {
    if bs == [] then None
    else if bs[0].checked && bs[0].handle != previous then Some(bs[0].handle)
    else
      var c := Detect(bs[1..], previous);
      if c.Some? then
        ghost var i :| 0 <= i < |bs[1..]| && bs[1..][i].handle == c.value && bs[1..][i].checked && bs[1..][i].handle != previous;
        assert bs[i + 1] == bs[1..][i];
        c
      else c
  }

  /** A button becoming checked: it becomes the group's checked button and, in an
      exclusive group, the previously checked button is unchecked. */
  function Notify(r: Registry, exclusive: bool, k: int): (r': Registry)
    requires 0 <= k < |r.buttons|
    ensures |r'.buttons| == |r.buttons|
  {
    var h := r.buttons[k].handle;
    var previous := r.checkedButton;
    if exclusive && previous.Some? && previous.value != h then
      var j := IndexOfHandle(r.buttons, previous.value);
      if j >= 0 then Registry(r.buttons[j := r.buttons[j].(checked := false)], Some(h))
      else Registry(r.buttons, Some(h))
    else Registry(r.buttons, Some(h))
  }

  /** `setChecked(v)` on the k-th button: ignored when the button is not checkable or
      already has that state, and refused when it would uncheck the checked button of an
      exclusive group. */
  function SetChecked(r: Registry, exclusive: bool, k: int, v: bool): (r': Registry)
    requires 0 <= k < |r.buttons|
    ensures |r'.buttons| == |r.buttons|
  {
    var b := r.buttons[k];
    if !b.checkable || b.checked == v then r
    else if !v && r.checkedButton == Some(b.handle) && exclusive then r
    else
      var cb := if !v && r.checkedButton == Some(b.handle) then Detect(r.buttons, b.handle) else r.checkedButton;
      var r2 := Registry(r.buttons[k := b.(checked := v)], cb);
      if v then Notify(r2, exclusive, k) else r2
  }

  /** `addButton`: the button is appended; in an exclusive group a button that is already
      checked becomes the checked button. */
  function Added(r: Registry, b: Button, exclusive: bool): Registry
  {
    var r2 := r.(buttons := r.buttons + [b]);
    if exclusive && b.checked then Notify(r2, exclusive, |r.buttons|) else r2
  }

  /** `removeButton` of the k-th button. */
  function Removed(r: Registry, exclusive: bool, k: int): Registry
    requires 0 <= k < |r.buttons|
  {
    var h := r.buttons[k].handle;
    var cb := if r.checkedButton == Some(h) then (if exclusive then None else Detect(r.buttons, h)) else r.checkedButton;
    Registry(r.buttons[..k] + r.buttons[k + 1..], cb)
  }

  /** Two buttons that differ at most in their checked flag. */
  predicate SameButChecked(x: Button, y: Button)
  {
    x.(checked := y.checked) == y
  }

  /** Two button lists that differ at most in checked flags. */
  predicate SameButCheckedAll(xs: seq<Button>, ys: seq<Button>)
  {
    |xs| == |ys| && forall i :: 0 <= i < |xs| ==> SameButChecked(xs[i], ys[i])
  }

  lemma NotifyShape(r: Registry, exclusive: bool, k: int)
    requires 0 <= k < |r.buttons|
    ensures SameButCheckedAll(r.buttons, Notify(r, exclusive, k).buttons)
    ensures Notify(r, exclusive, k).checkedButton == Some(r.buttons[k].handle)
    ensures !exclusive ==> Notify(r, exclusive, k).buttons == r.buttons
  {
  }

  /** Setting the checked state changes at most checked flags, and the k-th button's
      flag exactly when it is checkable (and, in an exclusive group, not the checked
      button being unchecked). */
  lemma SetCheckedShape(r: Registry, exclusive: bool, k: int, v: bool)
    requires 0 <= k < |r.buttons|
    ensures SameButCheckedAll(r.buttons, SetChecked(r, exclusive, k, v).buttons)
  {
    var b := r.buttons[k];
    if !b.checkable || b.checked == v {
    } else if !v && r.checkedButton == Some(b.handle) && exclusive {
    } else {
      var cb := if !v && r.checkedButton == Some(b.handle) then Detect(r.buttons, b.handle) else r.checkedButton;
      var r2 := Registry(r.buttons[k := b.(checked := v)], cb);
      if v { NotifyShape(r2, exclusive, k); }
    }
  }

  /** In a non-exclusive group `setChecked` only changes the flag of a checkable button. */
  lemma SetCheckedNonExclusive(r: Registry, k: int, v: bool)
    requires 0 <= k < |r.buttons|
    ensures SetChecked(r, false, k, v).buttons
         == if r.buttons[k].checkable then r.buttons[k := r.buttons[k].(checked := v)] else r.buttons
  {
    var b := r.buttons[k];
    if b.checkable && b.checked != v {
      var cb := if !v && r.checkedButton == Some(b.handle) then Detect(r.buttons, b.handle) else r.checkedButton;
      var r2 := Registry(r.buttons[k := b.(checked := v)], cb);
      if v { NotifyShape(r2, false, k); }
    } else if b.checkable {
      assert r.buttons[k := r.buttons[k].(checked := v)] == r.buttons;
    }
  }

  lemma SameButCheckedHandles(xs: seq<Button>, ys: seq<Button>)
    requires SameButCheckedAll(xs, ys)
    ensures Handles(xs) == Handles(ys)
    ensures DistinctHandles(xs) ==> DistinctHandles(ys)
  {
    assert forall i :: 0 <= i < |xs| ==> xs[i].handle == ys[i].handle;
  }

  /** Lists that differ only in checked flags find every handle at the same position. */
  lemma SameButCheckedIndex(xs: seq<Button>, ys: seq<Button>)
    requires SameButCheckedAll(xs, ys)
    ensures forall h :: IndexOfHandle(xs, h) == IndexOfHandle(ys, h)
  {
    assert forall i :: 0 <= i < |xs| ==> xs[i].handle == ys[i].handle;
    forall h ensures IndexOfHandle(xs, h) == IndexOfHandle(ys, h) {
      var a, b := IndexOfHandle(xs, h), IndexOfHandle(ys, h);
    }
  }

  /** `setChecked` keeps the toolkit group's invariant. */
  lemma SetCheckedValid(r: Registry, exclusive: bool, k: int, v: bool)
    requires RegistryValid(r, exclusive)
    requires 0 <= k < |r.buttons|
    ensures RegistryValid(SetChecked(r, exclusive, k, v), exclusive)
  {
    var b := r.buttons[k];
    if !b.checkable || b.checked == v {
    } else if !v && r.checkedButton == Some(b.handle) && exclusive {
    } else {
      var cb := if !v && r.checkedButton == Some(b.handle) then Detect(r.buttons, b.handle) else r.checkedButton;
      var bs2 := r.buttons[k := b.(checked := v)];
      var r2 := Registry(bs2, cb);
      assert DistinctHandles(bs2) by {
        assert forall i :: 0 <= i < |bs2| ==> bs2[i].handle == r.buttons[i].handle;
      }
      if v {
        var r3 := Notify(r2, exclusive, k);
        NotifyShape(r2, exclusive, k);
        SameButCheckedHandles(bs2, r3.buttons);
        assert r3.buttons[k].checked;
        if exclusive {
          forall i | 0 <= i < |r3.buttons| && r3.buttons[i].checked
            ensures r3.checkedButton == Some(r3.buttons[i].handle)
          {
            if i != k {
              assert false;
            }
          }
        }
      } else {
        if r2.checkedButton.Some? {
          if r.checkedButton == Some(b.handle) {
            var i :| 0 <= i < |r.buttons| && r.buttons[i].handle == cb.value && r.buttons[i].checked && r.buttons[i].handle != b.handle;
            assert bs2[i] == r.buttons[i];
          } else {
            var i :| 0 <= i < |r.buttons| && r.buttons[i].handle == r.checkedButton.value && r.buttons[i].checked;
            assert i != k;
            assert bs2[i] == r.buttons[i];
          }
        }
      }
    }
  }

  /** Appending a button that causes no notification keeps the toolkit group's invariant. */
  lemma AppendedValid(r: Registry, b: Button, exclusive: bool)
    requires RegistryValid(r, exclusive)
    requires forall i :: 0 <= i < |r.buttons| ==> r.buttons[i].handle != b.handle
    requires !(exclusive && b.checked)
    ensures RegistryValid(r.(buttons := r.buttons + [b]), exclusive)
  {
    var bs2 := r.buttons + [b];
    assert forall i :: 0 <= i < |r.buttons| ==> bs2[i] == r.buttons[i];
    if r.checkedButton.Some? {
      var i :| 0 <= i < |r.buttons| && r.buttons[i].handle == r.checkedButton.value && r.buttons[i].checked;
      assert bs2[i] == r.buttons[i];
    }
  }

  /** In a list of distinct handles, the position of a member's handle is that member. */
  lemma IndexOfDistinct(bs: seq<Button>, i: int)
    requires DistinctHandles(bs) && 0 <= i < |bs|
    ensures IndexOfHandle(bs, bs[i].handle) == i
  {
  }

  /** Appending a checked button to an exclusive group whose checked button sits at `i`:
      only the new button is left checked. */
  lemma AppendedUnchecksPrevious(r: Registry, b: Button, i: int)
    requires RegistryValid(r, true)
    requires forall t :: 0 <= t < |r.buttons| ==> r.buttons[t].handle != b.handle
    requires 0 <= i < |r.buttons| && r.checkedButton == Some(r.buttons[i].handle)
    ensures var bs2 := r.buttons + [b];
      Notify(r.(buttons := bs2), true, |r.buttons|).buttons == bs2[i := bs2[i].(checked := false)]
    ensures forall t :: 0 <= t < |r.buttons| && t != i ==> !r.buttons[t].checked
  {
    var bs2 := r.buttons + [b];
    assert forall t :: 0 <= t < |r.buttons| ==> bs2[t] == r.buttons[t];
    assert DistinctHandles(bs2);
    IndexOfDistinct(bs2, i);
  }

  /** Appending a button to an exclusive group and notifying it: no earlier button is
      left checked. */
  lemma AppendedOnlyNewChecked(r: Registry, b: Button)
    requires RegistryValid(r, true)
    requires forall t :: 0 <= t < |r.buttons| ==> r.buttons[t].handle != b.handle
    ensures var r3 := Notify(r.(buttons := r.buttons + [b]), true, |r.buttons|);
      && r3.buttons[|r.buttons|] == b
      && forall t :: 0 <= t < |r.buttons| ==> !r3.buttons[t].checked
  {
    var n := |r.buttons|;
    if r.checkedButton.Some? {
      var i :| 0 <= i < n && r.buttons[i].handle == r.checkedButton.value && r.buttons[i].checked;
      AppendedUnchecksPrevious(r, b, i);
    } else {
      assert forall t :: 0 <= t < n ==> !r.buttons[t].checked;
    }
  }

  /** Appending a checked button to an exclusive group: it becomes the one checked button. */
  lemma AppendedCheckedExclusive(r: Registry, b: Button)
    requires RegistryValid(r, true)
    requires forall i :: 0 <= i < |r.buttons| ==> r.buttons[i].handle != b.handle
    requires b.checked
    ensures var r3 := Notify(r.(buttons := r.buttons + [b]), true, |r.buttons|);
      && RegistryValid(r3, true)
      && SameButCheckedAll(r.buttons + [b], r3.buttons)
      && r3.buttons[|r.buttons|] == b
  {
    var n := |r.buttons|;
    var bs2 := r.buttons + [b];
    var r2 := r.(buttons := bs2);
    assert DistinctHandles(bs2) by {
      assert forall i :: 0 <= i < n ==> bs2[i] == r.buttons[i];
    }
    var r3 := Notify(r2, true, n);
    NotifyShape(r2, true, n);
    SameButCheckedHandles(bs2, r3.buttons);
    AppendedOnlyNewChecked(r, b);
    assert r3.buttons[n].handle == r3.checkedButton.value;
  }

  /** `addButton` of a new button keeps the toolkit group's invariant, appends the
      button itself and changes at most checked flags of the others. */
  lemma AddedValid(r: Registry, b: Button, exclusive: bool)
    requires RegistryValid(r, exclusive)
    requires forall i :: 0 <= i < |r.buttons| ==> r.buttons[i].handle != b.handle
    ensures RegistryValid(Added(r, b, exclusive), exclusive)
    ensures SameButCheckedAll(r.buttons + [b], Added(r, b, exclusive).buttons)
    ensures Added(r, b, exclusive).buttons[|r.buttons|] == b
  {
    if exclusive && b.checked {
      AppendedCheckedExclusive(r, b);
    } else {
      AppendedValid(r, b, exclusive);
    }
  }

  /** `addButton` never checks an earlier button, and it changes no earlier flag unless
      it adds a checked button to an exclusive group. */
  lemma AddedFlags(r: Registry, b: Button, exclusive: bool)
    requires RegistryValid(r, exclusive)
    requires forall i :: 0 <= i < |r.buttons| ==> r.buttons[i].handle != b.handle
    ensures forall t :: 0 <= t < |r.buttons| && Added(r, b, exclusive).buttons[t].checked ==> r.buttons[t].checked
    ensures !(exclusive && b.checked) ==> Added(r, b, exclusive).buttons == r.buttons + [b]
  {
    if exclusive && b.checked {
      AppendedOnlyNewChecked(r, b);
    }
  }

  /** `removeButton` keeps the toolkit group's invariant. */
  lemma RemovedValid(r: Registry, exclusive: bool, k: int)
    requires RegistryValid(r, exclusive)
    requires 0 <= k < |r.buttons|
    ensures RegistryValid(Removed(r, exclusive, k), exclusive)
  {
    var h := r.buttons[k].handle;
    var bs2 := r.buttons[..k] + r.buttons[k + 1..];
    assert forall i :: 0 <= i < k ==> bs2[i] == r.buttons[i];
    assert forall i :: k <= i < |bs2| ==> bs2[i] == r.buttons[i + 1];
    var r2 := Removed(r, exclusive, k);
    assert DistinctHandles(bs2);
    if r2.checkedButton.Some? {
      var i :| 0 <= i < |r.buttons| && r.buttons[i].handle == r2.checkedButton.value && r.buttons[i].checked
             && r.buttons[i].handle != h;
      if i < k {
        assert bs2[i] == r.buttons[i];
      } else {
        assert bs2[i - 1] == r.buttons[i];
      }
    }
  }

  /** Removing the first registered button leaves the others, in order. */
  lemma RemovedFirstValid(r: Registry, exclusive: bool)
    requires RegistryValid(r, exclusive) && r.buttons != []
    ensures IndexOfHandle(r.buttons, r.buttons[0].handle) == 0
    ensures Removed(r, exclusive, 0).buttons == r.buttons[1..]
    ensures RegistryValid(Removed(r, exclusive, 0), exclusive)
  {
    RemovedValid(r, exclusive, 0);
  }

  /** The invariant of a group widget: a valid toolkit group whose buttons are laid out in
      registration order, each created before the next handle, and checkable throughout
      when the kind makes its buttons checkable. */
  ghost predicate GroupValid(kind: GroupKind, r: Registry, layout: seq<Handle>, next: nat)
  {
    && RegistryValid(r, Exclusive(kind))
    && layout == Handles(r.buttons)
    && (forall i :: 0 <= i < |r.buttons| ==> r.buttons[i].handle < next)
    && (CheckableKind(kind) ==> AllCheckable(r.buttons))
  }

  /** Unregistering the first button and taking it out of the layout keeps the widget's
      invariant. */
  lemma RemoveFirstGroupValid(kind: GroupKind, r: Registry, layout: seq<Handle>, next: nat)
    requires GroupValid(kind, r, layout, next) && r.buttons != []
    ensures GroupValid(kind, Removed(r, Exclusive(kind), 0), RemoveFirst(layout, r.buttons[0].handle), next)
  {
    RemovedFirstValid(r, Exclusive(kind));
    var r' := Removed(r, Exclusive(kind), 0);
    assert RemoveFirst(layout, r.buttons[0].handle) == layout[1..];
    assert Handles(r'.buttons) == layout[1..];
  }

  /** Registering a newly created button and appending it to the layout keeps the widget's
      invariant. */
  lemma AddStepGroupValid(kind: GroupKind, r: Registry, layout: seq<Handle>, next: nat, b: Button)
    requires GroupValid(kind, r, layout, next)
    requires b.handle == next && (CheckableKind(kind) ==> b.checkable)
    ensures GroupValid(kind, Added(r, b, Exclusive(kind)), layout + [next], next + 1)
  {
    var bs2 := r.buttons + [b];
    var r' := Added(r, b, Exclusive(kind));
    AddedValid(r, b, Exclusive(kind));
    assert Handles(r'.buttons) == layout + [next] by {
      SameButCheckedHandles(bs2, r'.buttons);
      assert Handles(bs2) == Handles(r.buttons) + [next];
    }
    assert forall i :: 0 <= i < |r'.buttons| ==> r'.buttons[i].handle < next + 1 by {
      assert forall i :: 0 <= i < |r'.buttons| ==> r'.buttons[i].handle == bs2[i].handle;
    }
    if CheckableKind(kind) {
      SameButCheckedAllCheckable(bs2, r'.buttons);
    }
  }

  /** Moving the head of the remaining buttons to the removed ones. */
  lemma SplitOffHead(snapshot: seq<Button>, done: seq<Button>, before: seq<Button>, after: seq<Button>)
    requires snapshot == done + before && before != []
    requires after == before[..0] + before[1..]
    ensures snapshot == (done + [before[0]]) + after
    ensures HandleSet(done + [before[0]]) == HandleSet(done) + {before[0].handle}
  {
    assert (done + [before[0]])[..|done|] == done;
  }

  /** Retagging a button's position keeps the widget's invariant. */
  lemma PositionGroupValid(kind: GroupKind, r: Registry, layout: seq<Handle>, next: nat, j: nat, tag: Position)
    requires GroupValid(kind, r, layout, next) && j < |r.buttons|
    ensures GroupValid(kind, r.(buttons := r.buttons[j := r.buttons[j].(position := tag)]), layout, next)
  {
    var bs := r.buttons[j := r.buttons[j].(position := tag)];
    assert forall t :: 0 <= t < |bs| ==> bs[t].handle == r.buttons[t].handle && bs[t].checked == r.buttons[t].checked && bs[t].checkable == r.buttons[t].checkable;
    assert Handles(bs) == Handles(r.buttons);
  }

  /** Setting the checked state of one button keeps the widget's invariant. */
  lemma CheckStepGroupValid(kind: GroupKind, r: Registry, layout: seq<Handle>, next: nat, k: nat, v: bool)
    requires GroupValid(kind, r, layout, next) && k < |r.buttons|
    ensures GroupValid(kind, SetChecked(r, Exclusive(kind), k, v), layout, next)
  {
    var r' := SetChecked(r, Exclusive(kind), k, v);
    SetCheckedValid(r, Exclusive(kind), k, v);
    SetCheckedShape(r, Exclusive(kind), k, v);
    SameButCheckedHandles(r.buttons, r'.buttons);
    if CheckableKind(kind) {
      SameButCheckedAllCheckable(r.buttons, r'.buttons);
    }
    assert forall i :: 0 <= i < |r.buttons| ==> r'.buttons[i].handle == r.buttons[i].handle;
  }

  /** The handles of a list of buttons, as a set. */
  function HandleSet(bs: seq<Button>): (hs: set<Handle>)
    ensures forall i :: 0 <= i < |bs| ==> bs[i].handle in hs
  {
    if bs == [] then {} else HandleSet(bs[..|bs| - 1]) + {bs[|bs| - 1].handle}
  }

  // ---------------------------------------------------------------------------
  // Check-box group: the checked texts

  predicate AllCheckable(bs: seq<Button>)
  {
    forall i :: 0 <= i < |bs| ==> bs[i].checkable
  }

  function Texts(bs: seq<Button>): (ts: seq<string>)
    ensures |ts| == |bs|
    ensures forall i :: 0 <= i < |bs| ==> ts[i] == ButtonText(bs[i])
  {
    seq(|bs|, i requires 0 <= i < |bs| => ButtonText(bs[i]))
  }

  /** `get_dayu_checked`: the texts of the checked boxes, in button order. */
  function CheckedTextsOf(bs: seq<Button>): (ts: seq<string>)
    ensures |ts| <= |bs|
    ensures forall i :: 0 <= i < |bs| && bs[i].checked ==> ButtonText(bs[i]) in ts
    ensures forall t :: t in ts ==> exists i :: 0 <= i < |bs| && bs[i].checked && ButtonText(bs[i]) == t
  {
    if bs == [] then []
    else
      var rest := CheckedTextsOf(bs[1..]);
      assert forall i :: 1 <= i < |bs| ==> bs[1..][i - 1] == bs[i];
      (if bs[0].checked then [ButtonText(bs[0])] else []) + rest
  }

  /** The elements of `xs` that occur in `value`, in the order of `xs`. */
  function Filter(xs: seq<string>, value: seq<string>): (ys: seq<string>)
    ensures forall y :: y in ys ==> y in xs && y in value
  {
    if xs == [] then [] else (if xs[0] in value then [xs[0]] else []) + Filter(xs[1..], value)
  }

  predicate DistinctTexts(xs: seq<string>)
  {
    forall i, j :: 0 <= i < j < |xs| ==> xs[i] != xs[j]
  }

  /** The value given to the checked setter: one text or a list of texts. */
  datatype CheckValue = OneText(text: string) | TextList(texts: seq<string>)

  function AsList(v: CheckValue): (l: seq<string>)
    ensures v.OneText? ==> l == [v.text]
    ensures v.TextList? ==> l == v.texts
  {
    match v
    case OneText(t) => [t]
    case TextList(ts) => ts
  }

  /** The first n steps of the setter's loop: each box is set to whether its text is
      in `value`, skipping boxes already in that state. */
  function CheckTexts(r: Registry, value: seq<string>, n: nat): (r': Registry)
    requires n <= |r.buttons|
    ensures |r'.buttons| == |r.buttons|
    decreases n
  {
    if n == 0 then r
    else
      var p := CheckTexts(r, value, n - 1);
      var flag := ButtonText(p.buttons[n - 1]) in value;
      if flag != p.buttons[n - 1].checked then SetChecked(p, false, n - 1, flag) else p
  }

  /** After the first n steps the first n boxes are checked exactly when their text is
      in `value`, and nothing else has changed. */
  lemma {:induction false} CheckTextsEffect(r: Registry, value: seq<string>, n: nat)
    requires n <= |r.buttons|
    requires AllCheckable(r.buttons)
    ensures SameButCheckedAll(r.buttons, CheckTexts(r, value, n).buttons)
    ensures forall i :: 0 <= i < n ==> CheckTexts(r, value, n).buttons[i].checked == (ButtonText(r.buttons[i]) in value)
    ensures forall i :: n <= i < |r.buttons| ==> CheckTexts(r, value, n).buttons[i] == r.buttons[i]
    decreases n
  {
    if n > 0 {
      CheckTextsEffect(r, value, n - 1);
      var p := CheckTexts(r, value, n - 1);
      var flag := ButtonText(p.buttons[n - 1]) in value;
      if flag != p.buttons[n - 1].checked {
        SetCheckedNonExclusive(p, n - 1, flag);
      }
    }
  }

  lemma {:induction false} CheckedTextsOfFilter(bs: seq<Button>, value: seq<string>)
    requires forall i :: 0 <= i < |bs| ==> bs[i].checked == (ButtonText(bs[i]) in value)
    ensures CheckedTextsOf(bs) == Filter(Texts(bs), value)
    decreases |bs|
  {
    if bs != [] {
      CheckedTextsOfFilter(bs[1..], value);
      assert Texts(bs)[1..] == Texts(bs[1..]);
    }
  }

  lemma SameButCheckedTexts(xs: seq<Button>, ys: seq<Button>)
    requires SameButCheckedAll(xs, ys)
    ensures Texts(xs) == Texts(ys)
  {
    assert forall i :: 0 <= i < |xs| ==> ButtonText(xs[i]) == ButtonText(ys[i]);
  }

  /** Setting the checked texts and reading them back: the texts of all boxes that
      occur in `value`, in box order. */
  lemma CheckTextsThenRead(r: Registry, value: seq<string>)
    requires AllCheckable(r.buttons)
    ensures CheckedTextsOf(CheckTexts(r, value, |r.buttons|).buttons) == Filter(Texts(r.buttons), value)
  {
    var r' := CheckTexts(r, value, |r.buttons|);
    CheckTextsEffect(r, value, |r.buttons|);
    SameButCheckedTexts(r.buttons, r'.buttons);
    CheckedTextsOfFilter(r'.buttons, value);
  }

  /** When the boxes have distinct texts and `value` lists some of them in box order,
      reading back returns exactly `value`. */
  lemma {:induction false} FilterSubsequence(xs: seq<string>, value: seq<string>)
    requires DistinctTexts(xs)
    requires IsSubsequence(value, xs)
    ensures Filter(xs, value) == value
    decreases |xs|
  {
    if xs != [] {
      var tail := xs[1..];
      assert DistinctTexts(tail) by {
        assert forall i :: 0 <= i < |tail| ==> tail[i] == xs[i + 1];
      }
      if value != [] && value[0] == xs[0] {
        FilterSubsequence(tail, value[1..]);
        assert xs[0] !in tail by {
          assert forall i :: 0 <= i < |tail| ==> tail[i] == xs[i + 1];
        }
        FilterIgnoresAbsentHead(tail, value);
      } else {
        FilterSubsequence(tail, value);
        SubsequenceHead(value, xs);
      }
    }
  }

  /** Filtering `xs` by `value` and by `value` without its head agree when the head
      does not occur in `xs`. */
  lemma {:induction false} FilterIgnoresAbsentHead(xs: seq<string>, value: seq<string>)
    requires value != [] && value[0] !in xs
    ensures Filter(xs, value) == Filter(xs, value[1..])
    decreases |xs|
  {
    if xs != [] {
      assert value == [value[0]] + value[1..];
      assert xs[0] in value <==> xs[0] in value[1..];
      FilterIgnoresAbsentHead(xs[1..], value);
    }
  }

  /** When `xs` is distinct and its head is not the head of its subsequence `value`,
      the head does not occur in `value` at all. */
  lemma SubsequenceHead(value: seq<string>, xs: seq<string>)
    requires xs != [] && DistinctTexts(xs)
    requires IsSubsequence(value, xs)
    requires value == [] || value[0] != xs[0]
    ensures xs[0] !in value
  {
    if value != [] {
      SubsequenceMembers(value, xs[1..]);
      assert forall i :: 0 <= i < |xs[1..]| ==> xs[1..][i] == xs[i + 1];
    }
  }

  /** Reading back the checked texts after setting a list of box texts in box order
      returns that list, when the boxes' texts are distinct. */
  lemma CheckedTextsRoundTrip(r: Registry, value: seq<string>)
    requires AllCheckable(r.buttons)
    requires DistinctTexts(Texts(r.buttons))
    requires IsSubsequence(value, Texts(r.buttons))
    ensures CheckedTextsOf(CheckTexts(r, value, |r.buttons|).buttons) == value
  {
    CheckTextsThenRead(r, value);
    FilterSubsequence(Texts(r.buttons), value);
  }

  /** The first n steps of `_slot_set_select`: each box is set to `state`, or toggled
      when no state is given. */
  function Select(r: Registry, state: Option<bool>, n: nat): (r': Registry)
    requires n <= |r.buttons|
    ensures |r'.buttons| == |r.buttons|
    decreases n
  {
    if n == 0 then r
    else
      var p := Select(r, state, n - 1);
      SetChecked(p, false, n - 1, if state.None? then !p.buttons[n - 1].checked else state.value)
  }

  lemma {:induction false} SelectEffect(r: Registry, state: Option<bool>, n: nat)
    requires n <= |r.buttons|
    requires AllCheckable(r.buttons)
    ensures SameButCheckedAll(r.buttons, Select(r, state, n).buttons)
    ensures forall i :: 0 <= i < n ==>
      Select(r, state, n).buttons[i].checked == if state.None? then !r.buttons[i].checked else state.value
    ensures forall i :: n <= i < |r.buttons| ==> Select(r, state, n).buttons[i] == r.buttons[i]
    decreases n
  {
    if n > 0 {
      SelectEffect(r, state, n - 1);
      var p := Select(r, state, n - 1);
      SetCheckedNonExclusive(p, n - 1, if state.None? then !p.buttons[n - 1].checked else state.value);
    }
  }

  lemma SameButCheckedAllCheckable(xs: seq<Button>, ys: seq<Button>)
    requires SameButCheckedAll(xs, ys) && AllCheckable(xs)
    ensures AllCheckable(ys)
  {
    assert forall i :: 0 <= i < |xs| ==> xs[i].checkable == ys[i].checkable;
  }

  /** Inverting the selection twice restores every box. */
  lemma InvertTwice(r: Registry)
    requires AllCheckable(r.buttons)
    ensures Select(Select(r, None, |r.buttons|), None, |r.buttons|).buttons == r.buttons
  {
    var r1 := Select(r, None, |r.buttons|);
    SelectEffect(r, None, |r.buttons|);
    SameButCheckedAllCheckable(r.buttons, r1.buttons);
    SelectEffect(r1, None, |r.buttons|);
    var r2 := Select(r1, None, |r.buttons|);
    assert forall i :: 0 <= i < |r.buttons| ==> r2.buttons[i] == r.buttons[i];
  }

  /** Selecting all (or none) checks (or unchecks) every box, so reading back gives every
      text (or no text). */
  lemma SelectAllThenRead(r: Registry, all: bool)
    requires AllCheckable(r.buttons)
    ensures CheckedTextsOf(Select(r, Some(all), |r.buttons|).buttons) == if all then Texts(r.buttons) else []
  {
    var r' := Select(r, Some(all), |r.buttons|);
    SelectEffect(r, Some(all), |r.buttons|);
    SameButCheckedTexts(r.buttons, r'.buttons);
    CheckedTextsAll(r'.buttons, all);
  }

  lemma {:induction false} CheckedTextsAll(bs: seq<Button>, all: bool)
    requires forall i :: 0 <= i < |bs| ==> bs[i].checked == all
    ensures CheckedTextsOf(bs) == if all then Texts(bs) else []
    decreases |bs|
  {
    if bs != [] {
      CheckedTextsAll(bs[1..], all);
      assert Texts(bs) == [ButtonText(bs[0])] + Texts(bs[1..]);
    }
  }

  // ---------------------------------------------------------------------------
  // Radio, tool and block groups: the checked id

  /** Checking the button registered under an id makes that id the group's checked id;
      in an exclusive group it is the only checked button. A button that is not checkable
      is left alone. */
  lemma CheckIdEffect(r: Registry, exclusive: bool, id: int)
    requires RegistryValid(r, exclusive)
    requires IndexOfId(r.buttons, id) >= 0
    ensures var k := IndexOfId(r.buttons, id);
      var r' := SetChecked(r, exclusive, k, true);
      if r.buttons[k].checkable then
        && r'.buttons[k].checked
        && (exclusive || !r.buttons[k].checked ==> CheckedIdOf(r') == id)
        && (exclusive ==> forall j :: 0 <= j < |r'.buttons| && j != k ==> !r'.buttons[j].checked)
      else r' == r
  {
    var k := IndexOfId(r.buttons, id);
    var r' := SetChecked(r, exclusive, k, true);
    var b := r.buttons[k];
    SetCheckedValid(r, exclusive, k, true);
    SetCheckedShape(r, exclusive, k, true);
    SameButCheckedHandles(r.buttons, r'.buttons);
    if b.checkable {
      assert r'.buttons[k].checked;
      if exclusive || !b.checked {
        assert r'.checkedButton == Some(b.handle);
        IndexOfDistinct(r'.buttons, k);
      }
    }
  }

  // ---------------------------------------------------------------------------
  // The group widget

  /** The position tag `set_button_list` gives the button at `index` of `n`. */
  function PositionTag(index: int, n: int): (p: Position)
    ensures index == 0 <==> p == Left
    ensures index != 0 && index == n - 1 <==> p == Right
    ensures p != Unplaced
  {
    if index == 0 then Left else if index == n - 1 then Right else Center
  }

  /** A signal the group emits: `sig_checked_changed` with a list of texts (check-box
      group) or with an id (radio, tool and block groups). */
  datatype Emission = TextsChanged(texts: seq<string>) | IdChanged(id: int)

  /** A button group widget: the toolkit group, the widget's layout (the handles of the
      buttons it shows, in order), the buttons it has hidden, and the signals it has
      emitted. `nextHandle` stands for object identity: every created button gets a new
      handle. */
  class Group {
    const kind: GroupKind
    const orientation: string
    const largeSize: int
    var registry: Registry
    var layout: seq<Handle>
    var hidden: set<Handle>
    var nextHandle: Handle
    var dayuChecked: seq<string>
    var events: seq<Emission>

    ghost predicate Valid()
      reads this`registry, this`layout, this`nextHandle
    {
      GroupValid(kind, registry, layout, nextHandle)
    }

    /** `__init__`: an empty group laid out along `orientation`; the exclusivity of the
        toolkit group is fixed by the kind. */
    constructor (kind: GroupKind, horizontal: bool, theme: Theme)
      ensures Valid()
      ensures this.kind == kind && largeSize == theme.large
      ensures orientation == if horizontal then "horizontal" else "vertical"
      ensures registry == Registry([], None) && layout == [] && hidden == {}
      ensures dayuChecked == [] && events == []
    {
      this.kind := kind;
      orientation := if horizontal then "horizontal" else "vertical";
      largeSize := theme.large;
      registry := Registry([], None);
      layout := [];
      hidden := {};
      nextHandle := 0;
      dayuChecked := [];
      events := [];
    }

    /** `add_button`: create the button for the kind, tag it with the orientation, copy the
        listed properties, register it under `index` (or a fresh id) and append it to the
        layout. */
    method AddButton(spec: ButtonSpec, index: Option<int>) returns (h: Handle)
      requires Valid()
      modifies this
      ensures Valid()
      ensures h == old(nextHandle) && nextHandle == h + 1
      ensures registry == Added(old(registry),
                                NewButton(kind, orientation, Normalise(spec), h, largeSize).(id := AssignedId(old(registry), index)),
                                Exclusive(kind))
      ensures layout == old(layout) + [h]
      ensures hidden == old(hidden) && dayuChecked == old(dayuChecked) && events == old(events)
    {
      h := nextHandle;
      var b := BuildButton(spec, h);
      NewButtonFromSpec(kind, orientation, spec, h, largeSize);
      if CheckableKind(kind) {
        CheckedWhenCheckable(kind, orientation, Normalise(spec), h, largeSize);
      }
      b := b.(id := AssignedId(registry, index));
      AddStepGroupValid(kind, registry, layout, nextHandle, b);
      registry := Added(registry, b, Exclusive(kind));
      layout := layout + [h];
      nextHandle := nextHandle + 1;
    }

    /** The first half of `add_button`: the group class creates the button, it is tagged
        with the orientation and the listed properties are copied from the description. */
    method BuildButton(spec: ButtonSpec, h: Handle) returns (b: Button)
      ensures b == NewButton(kind, orientation, Normalise(spec), h, largeSize)
    {
      var d := Normalise(spec);
      b := CreateButton(kind, d, h, largeSize);
      b := b.(props := b.props["combine" := Text(orientation)]);
      ghost var b0 := b;
      for i := 0 to |CopiedNames|
        invariant b == CopyProps(b0, d, CopiedNames[..i])
      {
        assert CopiedNames[..i + 1][..i] == CopiedNames[..i];
        b := ApplyProp(b, d, CopiedNames[i]);
      }
      assert CopiedNames[..|CopiedNames|] == CopiedNames;
    }

    /** The button `set_button_list` builds for the `i`-th of `specs` when the group's
        next handle was `start`, before any later exclusive add unchecks it. */
    function Listed(specs: seq<ButtonSpec>, start: Handle, i: nat): Button
      requires i < |specs|
    {
      NewButton(kind, orientation, Normalise(specs[i]), start + i, largeSize).(id := i, position := PositionTag(i, |specs|))
    }

    /** `bs` are the buttons built for the first `|bs|` of `specs`: each is its
        description's button up to its checked flag, exactly that button in a
        non-exclusive group, checked only if described checked, and checked if it is the
        last one described checked. */
    ghost predicate ListedUpTo(specs: seq<ButtonSpec>, start: Handle, bs: seq<Button>)
      requires |bs| <= |specs|
    {
      && (forall t :: 0 <= t < |bs| ==> SameButChecked(Listed(specs, start, t), bs[t]))
      && (!Exclusive(kind) ==> forall t :: 0 <= t < |bs| ==> bs[t] == Listed(specs, start, t))
      && (forall t :: 0 <= t < |bs| && bs[t].checked ==> Listed(specs, start, t).checked)
      && (forall t :: 0 <= t < |bs| && Listed(specs, start, t).checked && (forall u :: t < u < |bs| ==> !Listed(specs, start, u).checked) ==> bs[t].checked)
    }

    /** Adding the next described button, when the add only clears flags and clears none
        unless the new button is checked in an exclusive group, extends `ListedUpTo`. */
    lemma ListedStep(specs: seq<ButtonSpec>, start: Handle, bs: seq<Button>, bs2: seq<Button>)
      requires |bs| < |specs| && |bs2| == |bs| + 1
      requires ListedUpTo(specs, start, bs)
      requires bs2[|bs|] == Listed(specs, start, |bs|)
      requires forall t :: 0 <= t < |bs| ==> SameButChecked(bs[t], bs2[t])
      requires forall t :: 0 <= t < |bs| && bs2[t].checked ==> bs[t].checked
      requires !(Exclusive(kind) && Listed(specs, start, |bs|).checked) ==> forall t :: 0 <= t < |bs| ==> bs2[t] == bs[t]
      ensures ListedUpTo(specs, start, bs2)
    {
    }

    /** `addButton` of the next described button, followed by its position tag, extends
        `ListedUpTo`. */
    lemma ListedAdded(specs: seq<ButtonSpec>, start: Handle, r: Registry, b: Button)
      requires |r.buttons| < |specs| && RegistryValid(r, Exclusive(kind))
      requires forall i :: 0 <= i < |r.buttons| ==> r.buttons[i].handle != b.handle
      requires ListedUpTo(specs, start, r.buttons)
      requires b.(position := PositionTag(|r.buttons|, |specs|)) == Listed(specs, start, |r.buttons|)
      ensures var added := Added(r, b, Exclusive(kind)).buttons;
        ListedUpTo(specs, start, added[|r.buttons| := b.(position := PositionTag(|r.buttons|, |specs|))])
    {
      var j := |r.buttons|;
      AddedValid(r, b, Exclusive(kind));
      AddedFlags(r, b, Exclusive(kind));
      var added := Added(r, b, Exclusive(kind)).buttons;
      var bs2 := added[j := b.(position := PositionTag(j, |specs|))];
      assert forall t :: 0 <= t < j ==> bs2[t] == added[t];
      assert forall t :: 0 <= t < j ==> SameButChecked(r.buttons[t], bs2[t]) by {
        assert SameButCheckedAll(r.buttons + [b], added);
        assert forall t :: 0 <= t < j ==> (r.buttons + [b])[t] == r.buttons[t];
      }
      ListedStep(specs, start, r.buttons, bs2);
    }

    /** One step of the first loop of `set_button_list`: the first registered button is
        unregistered, taken out of the layout and hidden. */
    method RemoveFirstButton()
      requires Valid() && registry.buttons != []
      modifies this
      ensures Valid()
      ensures registry == Removed(old(registry), Exclusive(kind), 0)
      ensures layout == RemoveFirst(old(layout), old(registry.buttons)[0].handle)
      ensures hidden == old(hidden) + {old(registry.buttons)[0].handle}
      ensures nextHandle == old(nextHandle) && dayuChecked == old(dayuChecked) && events == old(events)
    {
      var h := registry.buttons[0].handle;
      var r' := Removed(registry, Exclusive(kind), 0);
      var l' := RemoveFirst(layout, h);
      RemoveFirstGroupValid(kind, registry, layout, nextHandle);
      registry, layout, hidden := r', l', hidden + {h};
    }

    /** The first loop of `set_button_list`: every current button is unregistered, taken
        out of the layout and hidden, in registration order. */
    method ClearButtons()
      requires Valid()
      modifies this
      ensures Valid()
      ensures registry.buttons == [] && layout == []
      ensures hidden == old(hidden) + HandleSet(old(registry.buttons))
      ensures nextHandle == old(nextHandle) && dayuChecked == old(dayuChecked) && events == old(events)
    {
      var snapshot := registry.buttons;
      ghost var done: seq<Button> := [];
      var i := 0;
      while i < |snapshot|
        invariant 0 <= i <= |snapshot| && |done| == i
        invariant Valid()
        invariant snapshot == done + registry.buttons
        invariant hidden == old(hidden) + HandleSet(done)
        invariant nextHandle == old(nextHandle)
        invariant dayuChecked == old(dayuChecked) && events == old(events)
      {
        ghost var before := registry.buttons;
        assert before[0] == snapshot[i];
        RemoveFirstButton();
        SplitOffHead(snapshot, done, before, registry.buttons);
        done := done + [snapshot[i]];
        i := i + 1;
      }
      assert done == snapshot;
    }

    /** `setProperty("position", tag)` on the j-th button. */
    method SetPosition(j: nat, tag: Position)
      requires Valid() && j < |registry.buttons|
      modifies this
      ensures Valid()
      ensures registry == old(registry).(buttons := old(registry.buttons)[j := old(registry.buttons)[j].(position := tag)])
      ensures layout == old(layout) && hidden == old(hidden) && nextHandle == old(nextHandle)
      ensures dayuChecked == old(dayuChecked) && events == old(events)
    {
      PositionGroupValid(kind, registry, layout, nextHandle, j, tag);
      registry := registry.(buttons := registry.buttons[j := registry.buttons[j].(position := tag)]);
    }

    /** One step of the second loop of `set_button_list`: the `j`-th description is added
        under id `j` and its button is tagged with its position. */
    method AddListed(specs: seq<ButtonSpec>, ghost start: Handle, j: nat)
      requires Valid() && j < |specs|
      requires nextHandle == start + j && |registry.buttons| == j
      requires ListedUpTo(specs, start, registry.buttons)
      modifies this
      ensures Valid()
      ensures nextHandle == start + j + 1 && |registry.buttons| == j + 1
      ensures ListedUpTo(specs, start, registry.buttons)
      ensures hidden == old(hidden) && dayuChecked == old(dayuChecked) && events == old(events)
    {
      ghost var before := registry;
      var h := AddButton(specs[j], Some(j));
      ghost var nb := NewButton(kind, orientation, Normalise(specs[j]), h, largeSize).(id := j);
      NewButtonFromSpec(kind, orientation, specs[j], h, largeSize);
      AddedValid(before, nb, Exclusive(kind));
      ListedAdded(specs, start, before, nb);
      SetPosition(j, PositionTag(j, |specs|));
    }

    /** `set_button_list`: every current button is unregistered, taken out of the layout and
        hidden; then each spec is added under its index and tagged with its position. */
    method SetButtonList(specs: seq<ButtonSpec>)
      requires Valid()
      modifies this
      ensures Valid()
      ensures |registry.buttons| == |specs|
      ensures forall i :: 0 <= i < |specs| ==> SameButChecked(Listed(specs, old(nextHandle), i), registry.buttons[i])
      ensures !Exclusive(kind) ==> forall i :: 0 <= i < |specs| ==> registry.buttons[i] == Listed(specs, old(nextHandle), i)
      ensures forall i :: 0 <= i < |specs| && registry.buttons[i].checked ==> Listed(specs, old(nextHandle), i).checked
      ensures forall i :: 0 <= i < |specs| && Listed(specs, old(nextHandle), i).checked && (forall u :: i < u < |specs| ==> !Listed(specs, old(nextHandle), u).checked) ==> registry.buttons[i].checked
      ensures forall i :: 0 <= i < |specs| ==>
        && registry.buttons[i].id == i
        && registry.buttons[i].position == PositionTag(i, |specs|)
        && ButtonText(registry.buttons[i]) == SpecText(specs[i])
      ensures hidden == old(hidden) + HandleSet(old(registry.buttons))
      ensures nextHandle == old(nextHandle) + |specs|
      ensures dayuChecked == old(dayuChecked) && events == old(events)
    {
      ghost var snapshot := registry.buttons;
      ClearButtons();
      ghost var start := nextHandle;
      var j := 0;
      while j < |specs|
        invariant 0 <= j <= |specs|
        invariant Valid()
        invariant nextHandle == start + j
        invariant |registry.buttons| == j
        invariant ListedUpTo(specs, start, registry.buttons)
        invariant hidden == old(hidden) + HandleSet(snapshot)
        invariant dayuChecked == old(dayuChecked) && events == old(events)
      {
        AddListed(specs, start, j);
        j := j + 1;
      }
      forall t | 0 <= t < |specs|
        ensures ButtonText(registry.buttons[t]) == SpecText(specs[t])
      {
        NewButtonFromSpec(kind, orientation, specs[t], start + t, largeSize);
      }
    }

    // -- check-box group

    /** `get_dayu_checked` of a check-box group: the texts of its checked boxes. */
    function CheckedTexts(): (ts: seq<string>)
      reads this
      ensures forall i :: 0 <= i < |registry.buttons| && registry.buttons[i].checked ==> ButtonText(registry.buttons[i]) in ts
      ensures forall t :: t in ts ==> exists i :: 0 <= i < |registry.buttons| && registry.buttons[i].checked && ButtonText(registry.buttons[i]) == t
    {
      CheckedTextsOf(registry.buttons)
    }

    /** `set_dayu_checked` of a check-box group: a single text counts as a list of one;
        when it equals the current checked texts nothing happens; otherwise the value is
        stored, each box is set to whether its text is in it, and the value is emitted. */
    method SetCheckedTexts(value: CheckValue)
      requires Valid() && kind == CheckBoxGroup
      modifies this
      ensures Valid()
      ensures var v := AsList(value);
        if v == old(CheckedTexts()) then
          registry == old(registry) && dayuChecked == old(dayuChecked) && events == old(events)
        else
          && registry == CheckTexts(old(registry), v, |old(registry.buttons)|)
          && dayuChecked == v
          && events == old(events) + [TextsChanged(v)]
      ensures layout == old(layout) && hidden == old(hidden) && nextHandle == old(nextHandle)
    {
      var v := AsList(value);
      if v == CheckedTextsOf(registry.buttons) {
        return;
      }
      dayuChecked := v;
      CheckBoxes(v);
      events := events + [TextsChanged(v)];
    }

    /** The loop of `set_dayu_checked`: each box is checked exactly when its text is in
        the list. */
    method CheckBoxes(v: seq<string>)
      requires Valid() && kind == CheckBoxGroup
      modifies this`registry
      ensures Valid()
      ensures registry == CheckTexts(old(registry), v, |old(registry.buttons)|)
    {
      ghost var r0 := registry;
      var n := |registry.buttons|;
      var i := 0;
      while i < n
        invariant 0 <= i <= n
        invariant registry == CheckTexts(r0, v, i)
        invariant Valid()
      {
        var box := registry.buttons[i];
        var flag := ButtonText(box) in v;
        if flag != box.checked {
          SetBoxChecked(i, flag);
        }
        i := i + 1;
      }
    }

    /** `setChecked(flag)` on the i-th button. */
    method SetBoxChecked(i: nat, flag: bool)
      requires Valid() && i < |registry.buttons|
      modifies this`registry
      ensures Valid()
      ensures registry == SetChecked(old(registry), Exclusive(kind), i, flag)
    {
      CheckStepGroupValid(kind, registry, layout, nextHandle, i, flag);
      registry := SetChecked(registry, Exclusive(kind), i, flag);
    }

    /** `_slot_set_select`: every box is set to `state` (toggled when there is none), then
        the checked texts are emitted. */
    method SetSelect(state: Option<bool>)
      requires Valid() && kind == CheckBoxGroup
      modifies this
      ensures Valid()
      ensures registry == Select(old(registry), state, |old(registry.buttons)|)
      ensures events == old(events) + [TextsChanged(CheckedTextsOf(registry.buttons))]
      ensures layout == old(layout) && hidden == old(hidden) && nextHandle == old(nextHandle)
      ensures dayuChecked == old(dayuChecked)
    {
      ghost var r0 := registry;
      var n := |registry.buttons|;
      var i := 0;
      while i < n
        invariant 0 <= i <= n
        invariant registry == Select(r0, state, i)
        invariant Valid()
        invariant layout == old(layout) && hidden == old(hidden) && nextHandle == old(nextHandle)
        invariant dayuChecked == old(dayuChecked) && events == old(events)
      {
        var flag := if state.None? then !registry.buttons[i].checked else state.value;
        SetBoxChecked(i, flag);
        i := i + 1;
      }
      MapSignal();
    }

    /** `_slot_map_signal`: emit the checked texts. */
    method MapSignal()
      modifies this
      ensures events == old(events) + [TextsChanged(CheckedTextsOf(registry.buttons))]
      ensures registry == old(registry) && layout == old(layout) && hidden == old(hidden)
      ensures nextHandle == old(nextHandle) && dayuChecked == old(dayuChecked)
    {
      events := events + [TextsChanged(CheckedTextsOf(registry.buttons))];
    }

    // -- radio, tool and block groups

    /** `get_dayu_checked` of a radio, tool or block group: the toolkit group's checked id. */
    function CheckedId(): (id: int)
      reads this
      ensures registry.checkedButton.None? ==> id == -1
      ensures Valid() && registry.checkedButton.Some? ==>
        exists i :: 0 <= i < |registry.buttons| && registry.buttons[i].checked && registry.buttons[i].id == id
    {
      CheckedIdOf(registry)
    }

    /** `set_dayu_checked` of a radio or tool group: nothing happens when the id is already
        the checked id or no button is registered under it; otherwise that button is
        checked and the id is emitted. */
    method SetCheckedId(id: int)
      requires Valid() && (kind.RadioGroup? || kind.ToolGroup?)
      modifies this
      ensures Valid()
      ensures var k := IndexOfId(old(registry.buttons), id);
        if id == old(CheckedId()) || k == -1 then
          registry == old(registry) && events == old(events)
        else
          registry == SetChecked(old(registry), Exclusive(kind), k, true)
          && events == old(events) + [IdChanged(id)]
      ensures layout == old(layout) && hidden == old(hidden) && nextHandle == old(nextHandle)
      ensures dayuChecked == old(dayuChecked)
    {
      if id == CheckedIdOf(registry) {
        return;
      }
      var k := IndexOfId(registry.buttons, id);
      if k == -1 {
        return;
      }
      CheckStepGroupValid(kind, registry, layout, nextHandle, k, true);
      registry := SetChecked(registry, Exclusive(kind), k, true);
      events := events + [IdChanged(id)];
    }

    /** `set_dayu_checked` of a block group: the button registered under the id is checked
        and the id is emitted, whether or not it was checked before. The block group looks
        the button up without a guard, so the id must be registered. */
    method SetBlockCheckedId(id: int)
      requires Valid() && kind == BlockGroup
      requires IndexOfId(registry.buttons, id) >= 0
      modifies this
      ensures Valid()
      ensures registry == SetChecked(old(registry), true, IndexOfId(old(registry.buttons), id), true)
      ensures events == old(events) + [IdChanged(id)]
      ensures layout == old(layout) && hidden == old(hidden) && nextHandle == old(nextHandle)
      ensures dayuChecked == old(dayuChecked)
    {
      var k := IndexOfId(registry.buttons, id);
      CheckStepGroupValid(kind, registry, layout, nextHandle, k, true);
      registry := SetChecked(registry, Exclusive(kind), k, true);
      events := events + [IdChanged(id)];
    }
  }
}
