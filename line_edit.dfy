/** `MLineEdit`: a text field that keeps a history of the texts set on it, can carry one
    widget before and one after the text (growing the text margins by their widths), passes
    its size on to them, and reports the text once typing has paused. The toolkit's own
    editing, painting and timer clock are outside the model: the text a key press leaves
    is an input, and the delay timer is a running flag plus a count of its starts. */
module LineEdit {
  import opened Common
  import opened Strings

  /** Key codes of the toolkit (`Qt.Key_Tab`, `Qt.Key_Enter`). */
  const KeyTab: int := 0x0100_0001
  const KeyEnter: int := 0x0100_0005

  /** A key press restarts the delay timer unless it is Enter or Tab. */
  predicate RestartsTimer(key: int)
  {
    key !in [KeyEnter, KeyTab]
  }

  /** The history property: a starting text followed by one line per text set since. It
      starts with the starting text, and each text set adds at least its line break. */
  function History(base: string, texts: seq<string>): (h: string)
    ensures |h| >= |base| + |texts|
    ensures h[..|base|] == base
    decreases |texts|
  {
    if texts == [] then base else History(base, texts[..|texts| - 1]) + "\n" + texts[|texts| - 1]
  }

  /** Sum of a list of widths. */
  function Sum(ws: seq<nat>): nat
  {
    if ws == [] then 0 else Sum(ws[..|ws| - 1]) + ws[|ws| - 1]
  }

  /** A widget placed beside the text: its width, whether it offers `set_dayu_size`, the
      properties the line edit gives it, its size and whether it is shown. */
  class Widget {
    const width: nat
    const sizable: bool
    var combine: string
    var position: string
    var size: Option<int>
    var visible: bool

    constructor (width: nat, sizable: bool)
      ensures this.width == width && this.sizable == sizable
      ensures combine == "" && position == "" && size == None && visible
    {
      this.width := width;
      this.sizable := sizable;
      combine := "";
      position := "";
      size := None;
      visible := true;
    }

    /** `setVisible(False)`. */
    method Hide()
      modifies this
      ensures !visible
      ensures combine == old(combine) && position == old(position) && size == old(size)
    {
      visible := false;
    }

    /** What the line edit does to a widget it installs: the "combine" and "position"
        properties, and its own size when the widget has `set_dayu_size`. */
    method Place(combine: string, position: string, s: int)
      modifies this
      ensures this.combine == combine && this.position == position
      ensures size == if sizable then Some(s) else old(size)
      ensures visible == old(visible)
    {
      this.combine := combine;
      this.position := position;
      if sizable {
        SetDayuSize(s);
      }
    }

    /** `set_dayu_size` of a widget that has one. */
    method SetDayuSize(v: int)
      requires sizable
      modifies this
      ensures size == Some(v)
      ensures combine == old(combine) && position == old(position) && visible == old(visible)
    {
      size := Some(v);
    }
  }

  /** An entry of the line edit's horizontal layout. */
  datatype LayoutItem = Stretch | Item(w: Widget)

  class LineEdit {
    const theme: Theme
    var text: string
    var history: string
    var margins: Margins
    var prefix: Widget?
    var suffix: Widget?
    var layout: seq<LayoutItem>
    var size: int
    var timerActive: bool
    var timerStarts: nat
    var emitted: seq<string>

    /** The history as a starting text (the initial one, or "" after a clear) followed by
        every text set since; and the widths of every prefix and suffix ever installed. */
    ghost var historyBase: string
    ghost var historyTexts: seq<string>
    ghost var prefixWidths: seq<nat>
    ghost var suffixWidths: seq<nat>

    /** The history is its base and the texts set since, one per line. */
    ghost predicate HistoryKept()
      reads this`history, this`historyBase, this`historyTexts
    {
      history == History(historyBase, historyTexts)
    }

    /** The history is its base and the texts set since, one per line; each text margin is
        2 plus the widths of every widget installed on that side (an old widget's width is
        never taken back); the stretch stays in the layout. */
    ghost predicate Valid()
      reads this
    {
      HistoryKept() && MarginsKept() && Stretch in layout
    }

    /** Each text margin is 2 plus the widths of every widget installed on that side. */
    ghost predicate MarginsKept()
      reads this`margins, this`prefixWidths, this`suffixWidths
    {
      margins == Margins(2 + Sum(prefixWidths), 0, 2 + Sum(suffixWidths), 0)
    }

    /** `__init__`: the history starts as the initial text, the margins are (2, 0, 2, 0),
        there is no prefix or suffix, the layout holds only its stretch and the size is the
        theme's default. */
    constructor (text: string, theme: Theme)
      ensures Valid()
      ensures this.theme == theme && this.text == text && history == text
      ensures margins == Margins(2, 0, 2, 0)
      ensures prefix == null && suffix == null && layout == [Stretch]
      ensures size == theme.defaultSize
      ensures !timerActive && timerStarts == 0 && emitted == []
    {
      this.theme := theme;
      this.text := text;
      history := text;
      margins := Margins(2, 0, 2, 0);
      prefix := null;
      suffix := null;
      layout := [Stretch];
      size := theme.defaultSize;
      timerActive := false;
      timerStarts := 0;
      emitted := [];
      historyBase := text;
      historyTexts := [];
      prefixWidths := [];
      suffixWidths := [];
    }

    /** `setText`: the new text is added to the history on a line of its own. */
    method SetText(t: string)
      requires Valid()
      modifies this
      ensures Valid()
      ensures text == t && history == old(history) + "\n" + t
      ensures historyBase == old(historyBase) && historyTexts == old(historyTexts) + [t]
      ensures margins == old(margins) && prefix == old(prefix) && suffix == old(suffix)
      ensures layout == old(layout) && size == old(size)
      ensures timerActive == old(timerActive) && timerStarts == old(timerStarts) && emitted == old(emitted)
    {
      assert (historyTexts + [t])[..|historyTexts|] == historyTexts;
      history := history + "\n" + t;
      text := t;
      historyTexts := historyTexts + [t];
    }

    /** `clear`: the text and the history become empty. */
    method Clear()
      requires Valid()
      modifies this
      ensures Valid()
      ensures text == "" && history == ""
      ensures historyBase == "" && historyTexts == []
      ensures margins == old(margins) && prefix == old(prefix) && suffix == old(suffix)
      ensures layout == old(layout) && size == old(size)
      ensures timerActive == old(timerActive) && timerStarts == old(timerStarts) && emitted == old(emitted)
    {
      history := "";
      text := "";
      historyBase := "";
      historyTexts := [];
    }

    /** `set_prefix_widget`: any previous prefix is taken out of the layout and hidden; the
        new widget is tagged for the left end, given the current size when it has a size,
        put first in the layout, and the left margin grows by its width. */
    method SetPrefixWidget(w: Widget) returns (r: Widget)
      requires Valid()
      modifies this, prefix, w
      ensures Valid()
      ensures r == w && prefix == w
      ensures old(prefix) != null && old(prefix) != w ==> !old(prefix).visible
      ensures old(prefix) != null && old(prefix) != w ==>
        old(prefix).combine == old(prefix.combine) && old(prefix).position == old(prefix.position) && old(prefix).size == old(prefix.size)
      ensures old(prefix) == w ==> !w.visible
      ensures old(prefix) != w ==> w.visible == old(w.visible)
      ensures w.combine == "horizontal" && w.position == "left"
      ensures w.size == if w.sizable then Some(size) else old(w.size)
      ensures layout == [Item(w)] + (if old(prefix) != null then RemoveFirst(old(layout), Item(old(prefix))) else old(layout))
      ensures margins == old(margins).(left := old(margins).left + w.width)
      ensures prefixWidths == old(prefixWidths) + [w.width]
      ensures suffix == old(suffix) && size == old(size) && text == old(text) && history == old(history)
      ensures timerActive == old(timerActive) && timerStarts == old(timerStarts) && emitted == old(emitted)
    {
      var previous := prefix;
      DropPrefix();
      w.Place("horizontal", "left", size);
      assert previous != null && previous != w ==>
        previous.combine == old(previous.combine) && previous.position == old(previous.position) && previous.size == old(previous.size);
      PutPrefix(w);
      r := w;
    }

    /** The first half of `set_prefix_widget`: the previous prefix, if any, leaves the
        layout and is hidden. */
    method DropPrefix()
      requires Valid()
      modifies this`layout, prefix
      ensures Valid()
      ensures layout == if prefix != null then RemoveFirst(old(layout), Item(prefix)) else old(layout)
      ensures prefix != null ==> !prefix.visible && prefix.size == old(prefix.size)
      ensures prefix != null ==> prefix.combine == old(prefix.combine) && prefix.position == old(prefix.position)
    {
      var previous := prefix;
      if previous != null {
        RemoveFirstKeepsStretch(layout, Item(previous));
        layout := RemoveFirst(layout, Item(previous));
        assert Valid();
        previous.Hide();
      }
    }

    /** The second half of `set_prefix_widget`: the widget goes first in the layout, the
        left margin grows by its width and it becomes the prefix. */
    method PutPrefix(w: Widget)
      requires Valid()
      modifies this`margins, this`prefixWidths, this`layout, this`prefix
      ensures Valid()
      ensures margins == old(margins).(left := old(margins).left + w.width)
      ensures prefixWidths == old(prefixWidths) + [w.width]
      ensures layout == [Item(w)] + old(layout) && prefix == w
    {
      var widths := prefixWidths + [w.width];
      SumGrows(prefixWidths, w.width);
      var items := [Item(w)] + layout;
      assert Stretch in items by {
        var k :| 0 <= k < |layout| && layout[k] == Stretch;
        assert items[k + 1] == Stretch;
      }
      margins, prefixWidths, layout, prefix := margins.(left := margins.left + w.width), widths, items, w;
    }

    /** `set_suffix_widget`: the same at the right end; the new widget goes last in the
        layout and the right margin grows by its width. */
    method SetSuffixWidget(w: Widget) returns (r: Widget)
      requires Valid()
      modifies this, suffix, w
      ensures Valid()
      ensures r == w && suffix == w
      ensures old(suffix) != null && old(suffix) != w ==> !old(suffix).visible
      ensures old(suffix) != null && old(suffix) != w ==>
        old(suffix).combine == old(suffix.combine) && old(suffix).position == old(suffix.position) && old(suffix).size == old(suffix.size)
      ensures old(suffix) == w ==> !w.visible
      ensures old(suffix) != w ==> w.visible == old(w.visible)
      ensures w.combine == "horizontal" && w.position == "right"
      ensures w.size == if w.sizable then Some(size) else old(w.size)
      ensures layout == (if old(suffix) != null then RemoveFirst(old(layout), Item(old(suffix))) else old(layout)) + [Item(w)]
      ensures margins == old(margins).(right := old(margins).right + w.width)
      ensures suffixWidths == old(suffixWidths) + [w.width]
      ensures prefix == old(prefix) && size == old(size) && text == old(text) && history == old(history)
      ensures timerActive == old(timerActive) && timerStarts == old(timerStarts) && emitted == old(emitted)
    {
      var previous := suffix;
      DropSuffix();
      w.Place("horizontal", "right", size);
      assert previous != null && previous != w ==>
        previous.combine == old(previous.combine) && previous.position == old(previous.position) && previous.size == old(previous.size);
      PutSuffix(w);
      r := w;
    }

    /** The first half of `set_suffix_widget`: the previous suffix, if any, leaves the
        layout and is hidden. */
    method DropSuffix()
      requires Valid()
      modifies this`layout, suffix
      ensures Valid()
      ensures layout == if suffix != null then RemoveFirst(old(layout), Item(suffix)) else old(layout)
      ensures suffix != null ==> !suffix.visible && suffix.size == old(suffix.size)
      ensures suffix != null ==> suffix.combine == old(suffix.combine) && suffix.position == old(suffix.position)
    {
      var previous := suffix;
      if previous != null {
        RemoveFirstKeepsStretch(layout, Item(previous));
        layout := RemoveFirst(layout, Item(previous));
        assert Valid();
        previous.Hide();
      }
    }

    /** The second half of `set_suffix_widget`: the widget goes last in the layout, the
        right margin grows by its width and it becomes the suffix. */
    method PutSuffix(w: Widget)
      requires Valid()
      modifies this`margins, this`suffixWidths, this`layout, this`suffix
      ensures Valid()
      ensures margins == old(margins).(right := old(margins).right + w.width)
      ensures suffixWidths == old(suffixWidths) + [w.width]
      ensures layout == old(layout) + [Item(w)] && suffix == w
    {
      var widths := suffixWidths + [w.width];
      SumGrows(suffixWidths, w.width);
      var items := layout + [Item(w)];
      assert Stretch in items by {
        var k :| 0 <= k < |layout| && layout[k] == Stretch;
        assert items[k] == Stretch;
      }
      margins, suffixWidths, layout, suffix := margins.(right := margins.right + w.width), widths, items, w;
    }

    /** `set_dayu_size`: the size is stored and passed on to the prefix and the suffix when
        they have a size. */
    method SetDayuSize(v: int)
      requires Valid()
      modifies this, prefix, suffix
      ensures Valid()
      ensures size == v
      ensures prefix != null && prefix.sizable ==> prefix.size == Some(v)
      ensures suffix != null && suffix.sizable ==> suffix.size == Some(v)
      ensures prefix == old(prefix) && suffix == old(suffix) && layout == old(layout)
      ensures margins == old(margins) && text == old(text) && history == old(history)
      ensures timerActive == old(timerActive) && timerStarts == old(timerStarts) && emitted == old(emitted)
      ensures prefix != null ==> prefix.combine == old(prefix.combine) && prefix.position == old(prefix.position) && prefix.visible == old(prefix.visible)
      ensures suffix != null ==> suffix.combine == old(suffix.combine) && suffix.position == old(suffix.position) && suffix.visible == old(suffix.visible)
      ensures prefix != null && !prefix.sizable ==> prefix.size == old(prefix.size)
      ensures suffix != null && !suffix.sizable ==> suffix.size == old(suffix.size)
    {
      size := v;
      if prefix != null && prefix.sizable {
        prefix.SetDayuSize(v);
      }
      if suffix != null && suffix.sizable {
        suffix.SetDayuSize(v);
      }
    }

    /** `keyPressEvent`: every key but Enter and Tab (re)starts the delay timer; the
        toolkit's own handling leaves `edited` as the text. */
    method KeyPress(key: int, edited: string)
      requires Valid()
      modifies this
      ensures Valid()
      ensures timerActive == (old(timerActive) || RestartsTimer(key))
      ensures timerStarts == old(timerStarts) + (if RestartsTimer(key) then 1 else 0)
      ensures text == edited && history == old(history) && emitted == old(emitted)
      ensures margins == old(margins) && prefix == old(prefix) && suffix == old(suffix)
      ensures layout == old(layout) && size == old(size)
    {
      if RestartsTimer(key) {
        timerActive := true;
        timerStarts := timerStarts + 1;
      }
      text := edited;
    }

    /** `_slot_delay_text_changed`: the current text is emitted. */
    method DelayTextChanged()
      requires Valid()
      modifies this`emitted
      ensures Valid()
      ensures emitted == old(emitted) + [text]
      ensures text == old(text) && history == old(history) && timerActive == old(timerActive)
      ensures timerStarts == old(timerStarts) && margins == old(margins) && layout == old(layout)
      ensures prefix == old(prefix) && suffix == old(suffix) && size == old(size)
    {
      emitted := emitted + [text];
    }

    /** The single-shot delay timer running out: it stops and the slot runs. */
    method TimerFires()
      requires Valid() && timerActive
      modifies this`emitted, this`timerActive
      ensures Valid()
      ensures !timerActive && emitted == old(emitted) + [text]
      ensures text == old(text) && history == old(history) && timerStarts == old(timerStarts)
      ensures margins == old(margins) && layout == old(layout)
      ensures prefix == old(prefix) && suffix == old(suffix) && size == old(size)
    {
      timerActive := false;
      DelayTextChanged();
    }

    /** The size shortcuts: each sets the theme's size and returns the line edit itself. */
    method Huge() returns (self: LineEdit)
      requires Valid()
      modifies this, prefix, suffix
      ensures Valid() && self == this && size == theme.huge
      ensures prefix != null && prefix.sizable ==> prefix.size == Some(theme.huge)
      ensures suffix != null && suffix.sizable ==> suffix.size == Some(theme.huge)
      ensures prefix == old(prefix) && suffix == old(suffix) && layout == old(layout)
      ensures margins == old(margins) && text == old(text) && history == old(history)
      ensures timerActive == old(timerActive) && timerStarts == old(timerStarts) && emitted == old(emitted)
      ensures prefix != null ==> prefix.combine == old(prefix.combine) && prefix.position == old(prefix.position) && prefix.visible == old(prefix.visible)
      ensures suffix != null ==> suffix.combine == old(suffix.combine) && suffix.position == old(suffix.position) && suffix.visible == old(suffix.visible)
      ensures prefix != null && !prefix.sizable ==> prefix.size == old(prefix.size)
      ensures suffix != null && !suffix.sizable ==> suffix.size == old(suffix.size)
    {
      SetDayuSize(theme.huge);
      self := this;
    }

    method Large() returns (self: LineEdit)
      requires Valid()
      modifies this, prefix, suffix
      ensures Valid() && self == this && size == theme.large
      ensures prefix != null && prefix.sizable ==> prefix.size == Some(theme.large)
      ensures suffix != null && suffix.sizable ==> suffix.size == Some(theme.large)
      ensures prefix == old(prefix) && suffix == old(suffix) && layout == old(layout)
      ensures margins == old(margins) && text == old(text) && history == old(history)
      ensures timerActive == old(timerActive) && timerStarts == old(timerStarts) && emitted == old(emitted)
      ensures prefix != null ==> prefix.combine == old(prefix.combine) && prefix.position == old(prefix.position) && prefix.visible == old(prefix.visible)
      ensures suffix != null ==> suffix.combine == old(suffix.combine) && suffix.position == old(suffix.position) && suffix.visible == old(suffix.visible)
      ensures prefix != null && !prefix.sizable ==> prefix.size == old(prefix.size)
      ensures suffix != null && !suffix.sizable ==> suffix.size == old(suffix.size)
    {
      SetDayuSize(theme.large);
      self := this;
    }

    method Medium() returns (self: LineEdit)
      requires Valid()
      modifies this, prefix, suffix
      ensures Valid() && self == this && size == theme.medium
      ensures prefix != null && prefix.sizable ==> prefix.size == Some(theme.medium)
      ensures suffix != null && suffix.sizable ==> suffix.size == Some(theme.medium)
      ensures prefix == old(prefix) && suffix == old(suffix) && layout == old(layout)
      ensures margins == old(margins) && text == old(text) && history == old(history)
      ensures timerActive == old(timerActive) && timerStarts == old(timerStarts) && emitted == old(emitted)
      ensures prefix != null ==> prefix.combine == old(prefix.combine) && prefix.position == old(prefix.position) && prefix.visible == old(prefix.visible)
      ensures suffix != null ==> suffix.combine == old(suffix.combine) && suffix.position == old(suffix.position) && suffix.visible == old(suffix.visible)
      ensures prefix != null && !prefix.sizable ==> prefix.size == old(prefix.size)
      ensures suffix != null && !suffix.sizable ==> suffix.size == old(suffix.size)
    {
      SetDayuSize(theme.medium);
      self := this;
    }

    method Small() returns (self: LineEdit)
      requires Valid()
      modifies this, prefix, suffix
      ensures Valid() && self == this && size == theme.small
      ensures prefix != null && prefix.sizable ==> prefix.size == Some(theme.small)
      ensures suffix != null && suffix.sizable ==> suffix.size == Some(theme.small)
      ensures prefix == old(prefix) && suffix == old(suffix) && layout == old(layout)
      ensures margins == old(margins) && text == old(text) && history == old(history)
      ensures timerActive == old(timerActive) && timerStarts == old(timerStarts) && emitted == old(emitted)
      ensures prefix != null ==> prefix.combine == old(prefix.combine) && prefix.position == old(prefix.position) && prefix.visible == old(prefix.visible)
      ensures suffix != null ==> suffix.combine == old(suffix.combine) && suffix.position == old(suffix.position) && suffix.visible == old(suffix.visible)
      ensures prefix != null && !prefix.sizable ==> prefix.size == old(prefix.size)
      ensures suffix != null && !suffix.sizable ==> suffix.size == old(suffix.size)
    {
      SetDayuSize(theme.small);
      self := this;
    }

    method Tiny() returns (self: LineEdit)
      requires Valid()
      modifies this, prefix, suffix
      ensures Valid() && self == this && size == theme.tiny
      ensures prefix != null && prefix.sizable ==> prefix.size == Some(theme.tiny)
      ensures suffix != null && suffix.sizable ==> suffix.size == Some(theme.tiny)
      ensures prefix == old(prefix) && suffix == old(suffix) && layout == old(layout)
      ensures margins == old(margins) && text == old(text) && history == old(history)
      ensures timerActive == old(timerActive) && timerStarts == old(timerStarts) && emitted == old(emitted)
      ensures prefix != null ==> prefix.combine == old(prefix.combine) && prefix.position == old(prefix.position) && prefix.visible == old(prefix.visible)
      ensures suffix != null ==> suffix.combine == old(suffix.combine) && suffix.position == old(suffix.position) && suffix.visible == old(suffix.visible)
      ensures prefix != null && !prefix.sizable ==> prefix.size == old(prefix.size)
      ensures suffix != null && !suffix.sizable ==> suffix.size == old(suffix.size)
    {
      SetDayuSize(theme.tiny);
      self := this;
    }
  }

  /** Taking a widget out of the layout never takes the stretch. */
  lemma RemoveFirstKeepsStretch(layout: seq<LayoutItem>, item: LayoutItem)
    requires Stretch in layout && item.Item?
    ensures Stretch in RemoveFirst(layout, item)
  {
    RemoveFirstMultiset(layout, item);
    assert multiset(RemoveFirst(layout, item))[Stretch] == multiset(layout)[Stretch];
  }

  /** The history is the starting text and the texts set since, joined by line breaks. */
  lemma {:induction false} HistoryIsJoin(base: string, texts: seq<string>)
    ensures History(base, texts) == Join([base] + texts, "\n")
    decreases |texts|
  {
    if texts != [] {
      var init := texts[..|texts| - 1];
      HistoryIsJoin(base, init);
      assert [base] + texts == ([base] + init) + [texts[|texts| - 1]];
      JoinAppend([base] + init, "\n", texts[|texts| - 1]);
    }
  }

  /** Reading the history back: when neither the starting text nor any set text holds a
      line break, splitting the history at line breaks gives the starting text and then
      every text set, in order. */
  lemma {:induction false} HistoryLines(base: string, texts: seq<string>)
    requires '\n' !in base && forall i :: 0 <= i < |texts| ==> '\n' !in texts[i]
    ensures Split(History(base, texts), '\n') == [base] + texts
  {
    var parts := [base] + texts;
    assert forall i :: 1 <= i < |parts| ==> parts[i] == texts[i - 1];
    assert "\n" == ['\n'];
    HistoryIsJoin(base, texts);
    SplitJoin(parts, '\n');
  }

  /** The text margins only grow: each installed widget adds its width and nothing is
      subtracted. */
  lemma {:induction false} SumGrows(ws: seq<nat>, w: nat)
    ensures Sum(ws + [w]) == Sum(ws) + w
    ensures Sum(ws) <= Sum(ws + [w])
  {
    assert (ws + [w])[..|ws|] == ws;
  }
}
