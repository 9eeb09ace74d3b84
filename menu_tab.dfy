/** `MMenuTabWidget`: a bar holding an exclusive group of block buttons followed by a
    stretch, with extra widgets put at either end. The block-button group itself is the
    `BlockGroup` kind of `ButtonGroup.Group`. */
module MenuTab {
  import opened Common
  import opened ButtonGroup

  /** An entry of the bar's horizontal layout; other widgets are known by an identity. */
  datatype BarItem = GroupSlot | BarStretch | BarWidget(widget: nat)

  predicate AllWidgets(items: seq<BarItem>)
  {
    forall i :: 0 <= i < |items| ==> items[i].BarWidget?
  }

  class MenuTabWidget {
    const group: Group
    const barMargins: Margins
    const fixedHeight: int
    var bar: seq<BarItem>

    /** The widgets inserted at the left, nearest first, and those appended at the right. */
    ghost var lefts: seq<BarItem>
    ghost var rights: seq<BarItem>

    /** The group is a valid block group, and the bar is the inserted widgets, then the
        group and the stretch, then the appended widgets. */
    ghost predicate Valid()
      reads this, group
    {
      && group.Valid() && group.kind == BlockGroup
      && AllWidgets(lefts) && AllWidgets(rights)
      && bar == lefts + [GroupSlot, BarStretch] + rights
    }

    /** `__init__`: an empty horizontal block group, then a stretch, in a bar with margins
        (10, 0, 10, 0); the widget is fixed at the large size plus 10 in height. */
    constructor (theme: Theme)
      ensures Valid() && fresh(group)
      ensures group.registry == Registry([], None) && group.layout == [] && group.events == []
      ensures group.orientation == "horizontal" && group.largeSize == theme.large
      ensures bar == [GroupSlot, BarStretch]
      ensures barMargins == Margins(10, 0, 10, 0) && fixedHeight == theme.large + 10
    {
      group := new Group(BlockGroup, true, theme);
      barMargins := Margins(10, 0, 10, 0);
      fixedHeight := theme.large + 10;
      bar := [GroupSlot, BarStretch];
      lefts := [];
      rights := [];
    }

    /** `tool_bar_append_widget`: the widget goes at the right end of the bar. */
    method AppendWidget(w: nat)
      requires Valid()
      modifies this
      ensures Valid()
      ensures bar == old(bar) + [BarWidget(w)]
      ensures lefts == old(lefts) && rights == old(rights) + [BarWidget(w)]
    {
      assert lefts + [GroupSlot, BarStretch] + (rights + [BarWidget(w)]) == bar + [BarWidget(w)];
      bar := bar + [BarWidget(w)];
      rights := rights + [BarWidget(w)];
    }

    /** `tool_bar_insert_widget`: the widget goes at the left end of the bar. */
    method InsertWidget(w: nat)
      requires Valid()
      modifies this
      ensures Valid()
      ensures bar == [BarWidget(w)] + old(bar)
      ensures lefts == [BarWidget(w)] + old(lefts) && rights == old(rights)
    {
      assert [BarWidget(w)] + lefts + [GroupSlot, BarStretch] + rights == [BarWidget(w)] + bar;
      bar := [BarWidget(w)] + bar;
      lefts := [BarWidget(w)] + lefts;
    }

    /** `add_menu`: the description is added to the block group under the given index. */
    method AddMenu(spec: ButtonSpec, index: Option<int>) returns (h: Handle)
      requires Valid()
      modifies group
      ensures Valid()
      ensures h == old(group.nextHandle)
      ensures group.registry == Added(old(group.registry),
                                      NewButton(BlockGroup, group.orientation, Normalise(spec), h, group.largeSize).(id := AssignedId(old(group.registry), index)),
                                      true)
      ensures group.layout == old(group.layout) + [h]
      ensures group.events == old(group.events) && group.hidden == old(group.hidden)
      ensures group.dayuChecked == old(group.dayuChecked) && group.nextHandle == old(group.nextHandle) + 1
      ensures bar == old(bar)
    {
      h := group.AddButton(spec, index);
    }
  }
}
