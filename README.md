# dayu_widgets core, modelled in Dafny

This project models the bookkeeping behind several dayu_widgets widgets, the Qt widget
library, and proves properties of that model. The widgets covered are:

- **Button groups** (`MButtonGroupBase` and its push, check-box, radio, tool and block
  variants).
  - A group holds an ordered list of buttons over a toolkit `QButtonGroup`.
  - `add_button` builds each button from a description and registers it under an id.
  - `set_button_list` replaces all the buttons.
  - The check-box group reads and writes its checked texts.
  - The radio, tool and block groups read and write a checked id.
- **Browser buttons** (`MBrowserMixin` and the click and drag file/folder buttons):
  - the shared path, multiple-selection and filter state;
  - the dialog slots;
  - the drag-and-drop handlers and the file filter they apply.
- **The image cache** `MCacheDict`: a table keyed by the lower-cased resolved path plus the
  colour, with the SVG colour substitution.
- **`MLineEdit`**:
  - its text history;
  - its prefix and suffix widgets and the text margins they widen;
  - size forwarding;
  - the delayed text signal.
- **`MMenuTabWidget`**: a block-button group inside a bar that other widgets can be added to
  at either end.
- **`MProgressBar`**: its status string.

Each widget is a class whose fields are the state the source updates. Each method is proved
against functions and predicates on values. The Qt behaviour the widgets rely on is written
out explicitly:

- automatic ids;
- exclusivity;
- a button that is not checkable ignoring `setChecked`;
- the checked button of an exclusive group refusing to be unchecked.

These are `Registry`, `SetChecked`, `Added` and `Removed` in `ButtonGroup`.

The modules are:

| module | contents |
|---|---|
| `Common` | An optional value, the theme sizes, margins, removing the first occurrence from a list, and subsequences. |
| `Strings` | Python string helpers: `join`, `split`, `endswith`, `lower` and `replace`. |
| `ButtonGroup` | The button groups. |
| `Browser` | The browser buttons. |
| `RenderCache` | The image cache. |
| `LineEdit` | The line edit. |
| `MenuTab` | The menu tab widget. |
| `ProgressBar` | The progress bar. |

The source is not always faithful to what its names and comments suggest. Where it differs,
the model follows the code:

- **`add_button` copies "checked" before "checkable".** A tool or push button described with
  both keys therefore ends up checkable but unchecked (`ButtonGroup.CheckedBeforeCheckable`).
- **Both drop handlers read the first element of their list without checking it.** In single
  mode this applies to the file drop, and in both modes to the folder drop. Those methods
  therefore require a non-empty list.
- **The block group's `set_dayu_checked` dereferences the looked-up button without checking
  it.** It therefore requires a registered id.
- **The folder drop's path update sits outside the multiple-mode branch.** It therefore always
  sets the path to the first folder, even in multiple mode.
- **A multiple-mode file drop stores the whole list as the path**, although the getter is
  annotated as returning an optional string. The dialog calls take that path as their start
  directory, a string, so after such a drop the browse and save slots raise before any dialog
  opens. In the model they then open, emit and store nothing (`Browser.Browser.DialogRaises`).

## Model

| member | source | states |
|---|---|---|
| Common.RemoveFirst | dayu_widgets/line_edit.py:84-85 | Taking a widget out of a layout removes its first occurrence only. The list is unchanged when the widget is absent. When it is present, the result is the list with the element at the first position holding the widget cut out, so it is one shorter. |
| Common.RemoveFirstMultiset | dayu_widgets/line_edit.py:84-85 | Exactly one copy of the widget is taken out when there is one, and nothing else. |
| Common.SubsequenceAppend | dayu_widgets/browser.py:293-298 | Appending a kept item to both the kept list and the input list preserves "kept items are in input order". |
| Strings.SplitJoin | dayu_widgets/line_edit.py:126 | Splitting a separator-joined list gives the list back when no part holds the separator. |
| Strings.JoinAppend | dayu_widgets/line_edit.py:126 | Adding a line to a joined history appends the separator and the line. |
| Strings.LowerIdempotent | dayu_widgets/qt/__init__.py:50 | Lower-casing twice is lower-casing once. |
| Strings.ReplaceAllAbsent | dayu_widgets/qt/__init__.py:30-31 | A text without the colour marker is left unchanged by the substitution. |
| Strings.ReplaceAll | dayu_widgets/qt/__init__.py:30-31 | `str.replace`: a text shorter than the pattern is unchanged. A replacement no longer than the pattern never lengthens the text, and one no shorter never shortens it, so a colour of the marker's length keeps the length. |
| Strings.ReplaceAllBySelf | dayu_widgets/qt/__init__.py:30-31 | Replacing the marker with itself changes nothing. |
| Strings.ReplaceAllWhole | dayu_widgets/qt/__init__.py:30-31 | A text that starts with the marker gets the colour in its place, and the substitution carries on with the rest of the text. |
| Strings.ReplaceAllSkip | dayu_widgets/qt/__init__.py:30-31 | A piece without the marker's first character passes through the substitution unchanged. |
| Strings.ReplaceAllPrefix | dayu_widgets/qt/__init__.py:30-31 | Text in front of the rest where no occurrence of the pattern starts is copied unchanged, and the substitution resumes at the rest. |
| Strings.NoStraddle | dayu_widgets/qt/__init__.py:30-31 | When a pattern's first character does not recur in it, no occurrence starts inside a pattern-free piece that the pattern follows. |
| Strings.ReplaceAllJoin | dayu_widgets/qt/__init__.py:30-31 | For a pattern whose first character does not recur in it, a text made of pieces that do not contain the pattern, separated by the pattern, gets every separator replaced and nothing else changes. |
| ButtonGroup.ToolMode | dayu_widgets/button_group.py:456-463 | Text beside icon iff there is text and an svg or icon. Text only iff there is text and neither. Icon only iff there is no text. |
| ButtonGroup.CreateButton | dayu_widgets/button_group.py:445-463 | A fresh button has no properties and is unchecked and unplaced. It is checkable in check-box, radio and block groups. Tool and block buttons take the tool display mode and a truthy svg. Only block buttons get the large size. The other `create_button`s are at lines 165-177, 241-250 and 365-374 and in dayu_widgets3/menu_tab_widget.py at lines 35-47. |
| ButtonGroup.ApplyPropEffect | dayu_widgets/button_group.py:96-102 | One copy step sets only a truthy value. "tooltip" is stored under "toolTip". "checked" takes effect only on a checkable button. "checkable" makes the button checkable. Nothing else changes. |
| ButtonGroup.CopyPropsUnfold | dayu_widgets/button_group.py:96 | The copy loop visits text, icon, data, checked, shortcut, tooltip and checkable, in that order. |
| ButtonGroup.CopiedPropsEffect | dayu_widgets/button_group.py:96-102 | After the copy loop the properties are the old ones plus every truthy copied value. The button is checkable iff it was or "checkable" is truthy. It is checked iff it was, or it was already checkable and "checked" is truthy. Nothing else changes. |
| ButtonGroup.SetIfTruthyAt | dayu_widgets/button_group.py:97-102 | A property key is present after a conditional set iff it was present or it is the key set with a truthy value. The stored value is the new one in that case. |
| ButtonGroup.TruthyCopiesAsUpdates | dayu_widgets/button_group.py:96-102 | The five conditional property sets amount to adding the truthy copies. |
| ButtonGroup.NewButtonFromSpec | dayu_widgets/button_group.py:87-93 | A bare string becomes the button text. An icon becomes the icon, with no text. The combine property is the orientation. The button keeps its handle. |
| ButtonGroup.CheckedBeforeCheckable | dayu_widgets/button_group.py:96-102 | A tool or push button described as both checked and checkable ends checkable but unchecked. |
| ButtonGroup.CheckedWhenCheckable | dayu_widgets/button_group.py:96-102 | Check-box, radio and block buttons are checkable and end checked iff "checked" is truthy. |
| ButtonGroup.BlockButtonStyle | dayu_widgets3/menu_tab_widget.py:17-47 | A block button is checkable, has the large size whatever the description holds, and takes the tool display mode. |
| ButtonGroup.Handles | dayu_widgets/button_group.py:128 | The handle list matches the button list position by position. |
| ButtonGroup.IndexOfHandle | dayu_widgets/button_group.py:130 | Gives the first position holding the handle, or -1 when no button has it. |
| ButtonGroup.IndexOfDistinct | dayu_widgets/button_group.py:130 | With distinct handles, looking up a button's handle finds that button. |
| ButtonGroup.IndexOfId | dayu_widgets/button_group.py:385 | `button(id)` gives the first button registered under the id, or none when no button has it. |
| ButtonGroup.CheckedIdOf | dayu_widgets/button_group.py:398 | The checked id is -1 without a checked button. Any other value is the id of the registered checked button, and with distinct handles it is exactly that button's id. |
| ButtonGroup.MinId | dayu_widgets/button_group.py:110-114 | The smallest id in use is attained by some button and bounds all ids from below. |
| ButtonGroup.AssignedId | dayu_widgets/button_group.py:110-114 | A given index other than -1 is the id. No index (or -1) gives an id no registered button has. |
| ButtonGroup.ExclusiveAtMostOne | dayu_widgets/button_group.py:362 | In a group made exclusive (radio, block, exclusive tool) no two buttons are checked. |
| ButtonGroup.Detect | dayu_widgets/button_group.py:129 | The checked button a non-exclusive group falls back to is a checked member other than the one that left. |
| ButtonGroup.NotifyShape | dayu_widgets/button_group.py:387 | A button becoming checked becomes the group's checked button. Only checked flags change, and in a non-exclusive group nothing else changes. |
| ButtonGroup.SetCheckedShape | dayu_widgets/button_group.py:387 | `setChecked` changes at most checked flags. |
| ButtonGroup.SetCheckedNonExclusive | dayu_widgets/button_group.py:310-314 | In a non-exclusive group `setChecked` sets exactly the flag of a checkable button and leaves a non-checkable one alone. |
| ButtonGroup.SameButCheckedHandles | dayu_widgets/button_group.py:96-114 | Lists that differ only in checked flags have the same handles and the same distinctness. |
| ButtonGroup.SameButCheckedIndex | dayu_widgets/button_group.py:96-114 | Lists that differ only in checked flags find every handle at the same position. |
| ButtonGroup.SetCheckedValid | dayu_widgets/button_group.py:387 | `setChecked` preserves the toolkit group's invariant. |
| ButtonGroup.AppendedValid | dayu_widgets/button_group.py:110-114 | Adding a button that is not checked, or adding to a non-exclusive group, preserves the invariant. |
| ButtonGroup.AppendedUnchecksPrevious | dayu_widgets/button_group.py:110-114 | Adding a checked button to an exclusive group unchecks the previously checked button and nothing else; no other earlier button was checked. |
| ButtonGroup.AppendedOnlyNewChecked | dayu_widgets/button_group.py:110-114 | After adding a checked button to an exclusive group, no earlier button is checked and the new one is last. |
| ButtonGroup.AppendedCheckedExclusive | dayu_widgets/button_group.py:110-114 | Adding a checked button to an exclusive group makes it the one checked button and preserves the invariant. |
| ButtonGroup.AddedValid | dayu_widgets/button_group.py:110-114 | `addButton` of a new button preserves the invariant. The new button is last, and the others differ at most in checked flags. |
| ButtonGroup.AddedFlags | dayu_widgets/button_group.py:110-114 | `addButton` never checks an earlier button. It changes no earlier flag unless it adds a checked button to an exclusive group. |
| ButtonGroup.RemovedValid | dayu_widgets/button_group.py:129 | `removeButton` preserves the invariant. |
| ButtonGroup.RemovedFirstValid | dayu_widgets/button_group.py:128-129 | Removing the first button leaves the rest in order and preserves the invariant. |
| ButtonGroup.RemoveFirstGroupValid | dayu_widgets/button_group.py:128-131 | Unregistering the first button and taking it out of the layout preserves the widget's invariant. |
| ButtonGroup.AddStepGroupValid | dayu_widgets/button_group.py:110-116 | Registering a newly created button and appending it to the layout preserves the widget's invariant. |
| ButtonGroup.PositionGroupValid | dayu_widgets/button_group.py:137-143 | Retagging a button's position preserves the widget's invariant. |
| ButtonGroup.CheckStepGroupValid | dayu_widgets/button_group.py:270-279 | Checking or unchecking one button preserves the widget's invariant. |
| ButtonGroup.HandleSet | dayu_widgets/button_group.py:131 | Every handle of the hidden buttons is in the set. |
| ButtonGroup.Texts | dayu_widgets/button_group.py:290-294 | Gives one text per button, in button order. |
| ButtonGroup.Filter | dayu_widgets/button_group.py:310-311 | Every text kept is both a box text and in the value. |
| ButtonGroup.AsList | dayu_widgets/button_group.py:303-304 | A single text counts as a list of one, and a list stays as it is. |
| ButtonGroup.CheckTextsEffect | dayu_widgets/button_group.py:306-314 | After the loop's first n steps, those boxes are checked iff their text is in the value. Later boxes are unchanged, and only checked flags differ. |
| ButtonGroup.CheckedTextsOfFilter | dayu_widgets/button_group.py:318-329 | When every box is checked iff its text is in the value, the checked texts are the box texts filtered by the value. |
| ButtonGroup.CheckedTextsOf | dayu_widgets/button_group.py:318-329 | The text of every checked box is in the result, each text in it is that of a checked box, and there are no more texts than boxes. |
| ButtonGroup.SameButCheckedTexts | dayu_widgets/button_group.py:306-314 | Changing checked flags does not change texts. |
| ButtonGroup.CheckTextsThenRead | dayu_widgets/button_group.py:297-329 | Setting the checked texts and reading them back gives the box texts that occur in the value, in box order. |
| ButtonGroup.FilterSubsequence | dayu_widgets/button_group.py:297-329 | With distinct texts, a value listing some box texts in box order filters to itself. |
| ButtonGroup.FilterIgnoresAbsentHead | dayu_widgets/button_group.py:310 | A value entry that is no box text does not affect the filter. |
| ButtonGroup.SubsequenceHead | dayu_widgets/button_group.py:310 | If the first box text is not the value's first entry, it occurs nowhere in the value. |
| ButtonGroup.CheckedTextsRoundTrip | dayu_widgets/button_group.py:297-329 | With distinct box texts, setting a value listed in box order and reading it back returns exactly that value. |
| ButtonGroup.SelectEffect | dayu_widgets/button_group.py:269-280 | After n steps of select-all, select-none or invert, those boxes have the given state (or the flipped one). The rest are unchanged, and only checked flags differ. |
| ButtonGroup.SameButCheckedAllCheckable | dayu_widgets/button_group.py:270-279 | Changing checked flags keeps all boxes checkable. |
| ButtonGroup.InvertTwice | dayu_widgets/button_group.py:272-275 | Inverting the selection twice restores every box. |
| ButtonGroup.SelectAllThenRead | dayu_widgets/button_group.py:269-295 | After select-all the checked texts are all texts. After select-none they are empty. |
| ButtonGroup.CheckedTextsAll | dayu_widgets/button_group.py:290-294 | Boxes all checked read back as all texts, and boxes all unchecked read back as none. |
| ButtonGroup.CheckIdEffect | dayu_widgets/button_group.py:385-387 | Checking the button under an id makes it checked and the id the checked id, and in an exclusive group every other button is unchecked. A non-checkable button is left alone. |
| ButtonGroup.PositionTag | dayu_widgets/button_group.py:137-143 | The first button is tagged left. The last (when not first) is tagged right. Every button gets a tag. |
| ButtonGroup.Group.constructor | dayu_widgets/button_group.py:163 | The group starts empty, with its exclusivity fixed by its kind: push and check-box groups off, radio and block groups on, and tool groups as given. |
| ButtonGroup.Group.AddButton | dayu_widgets/button_group.py:77-117 | The button built from the description is registered under the given or a fresh id, appended to the layout, and the invariant is kept. |
| ButtonGroup.Group.BuildButton | dayu_widgets/button_group.py:87-102 | The button is the one the group class creates from the normalised description, tagged with the orientation, with the listed properties copied in order. |
| ButtonGroup.Group.RemoveFirstButton | dayu_widgets/button_group.py:128-131 | The first button is unregistered, taken out of the layout and hidden. |
| ButtonGroup.Group.ClearButtons | dayu_widgets/button_group.py:128-131 | Every old button ends unregistered, out of the layout and hidden. |
| ButtonGroup.Group.SetPosition | dayu_widgets/button_group.py:137-143 | Only the position tag of that button changes. |
| ButtonGroup.Group.AddListed | dayu_widgets/button_group.py:134-143 | Description j is added under id j and tagged with its position; the earlier buttons keep their place. `ListedUpTo` is kept: every button is its description's button up to its checked flag, and exactly that button in a non-exclusive group; a checked button was described checked; the last button described checked is checked. |
| ButtonGroup.Group.ListedStep | dayu_widgets/button_group.py:110-114 | An add that only clears flags, and clears none unless an exclusive group gets a checked button, extends `ListedUpTo` by the next described button. |
| ButtonGroup.Group.ListedAdded | dayu_widgets/button_group.py:110-114 | `addButton` of the next described button, followed by its position tag, extends `ListedUpTo`. |
| ButtonGroup.Group.SetButtonList | dayu_widgets/button_group.py:119-143 | Old buttons are hidden. Button i gets id i, the text of description i and its position tag, and the invariant is kept. Button i is description i's button up to its checked flag, and exactly that button in a non-exclusive group. A button is checked only if its description is checked. The last description marked checked leaves its button checked. |
| ButtonGroup.Group.SetCheckedTexts | dayu_widgets/button_group.py:297-316 | An unchanged value does nothing. Otherwise it is stored, the boxes are checked by membership, and it is emitted. |
| ButtonGroup.Group.CheckedTexts | dayu_widgets/button_group.py:318-329 | Reads back the texts of exactly the checked boxes of the group. |
| ButtonGroup.Group.CheckBoxes | dayu_widgets/button_group.py:310-314 | Each box ends checked exactly as the membership loop decides, and the invariant is kept. |
| ButtonGroup.Group.SetBoxChecked | dayu_widgets/button_group.py:276-280 | `setChecked` on one button applies the toolkit's rule and keeps the invariant. |
| ButtonGroup.Group.SetSelect | dayu_widgets/button_group.py:269-281 | Every box is set or toggled, then the checked texts are emitted. |
| ButtonGroup.Group.MapSignal | dayu_widgets/button_group.py:284-295 | The checked texts are emitted and nothing else changes. |
| ButtonGroup.Group.SetCheckedId | dayu_widgets/button_group.py:376-390 | The group's state is left unchanged when the id is already checked or unknown. Otherwise that button is checked and the id emitted. The tool group's setter at lines 466-479 is the same. |
| ButtonGroup.Group.CheckedId | dayu_widgets/button_group.py:392-398 | `checkedId()` is -1 with no checked button. In a valid group with a checked button it is the id of a registered, checked button. The tool group's getter at lines 481-487 and the block group's are the same. |
| ButtonGroup.Group.SetBlockCheckedId | dayu_widgets3/menu_tab_widget.py:49-53 | The button under a registered id is checked and the id is always emitted. |
| Browser.Patterns | dayu_widgets/browser.py:32 | Each filter becomes "*" followed by that filter, position by position. |
| Browser.FilterStringAny | dayu_widgets/browser.py:31-35 | The dialog filter is "Any File(*)" exactly when there are no extension filters. |
| Browser.FilterStringRecoversFilters | dayu_widgets/browser.py:31-35 | The filter is "File(" plus the patterns plus ")". Splitting between the parentheses on blanks gives the patterns, and dropping each "*" gives the filters back. |
| Browser.Extension | dayu_widgets/browser.py:295 | `splitext(name)[-1]` is empty, or a dot-led suffix of the name with no other dot and no '/'. |
| Browser.LastIndexOfAt | dayu_widgets/browser.py:295 | An occurrence with none after it is the last occurrence. |
| Browser.ExtensionOfName | dayu_widgets/browser.py:295 | A folder, a stem and ".x" give the extension ".x". |
| Browser.HiddenFileHasNoExtension | dayu_widgets/browser.py:295 | A hidden file's leading dot is no extension. |
| Browser.ValidFiles | dayu_widgets/browser.py:267-300 | Keeps no more names than were dropped, and every kept name is a file that passes the extension test. |
| Browser.AcceptsDrag | dayu_widgets/browser.py:248-249 | An empty drop is never accepted and a drop of several only in multiple mode. One item, or several in multiple mode, is always accepted. |
| Browser.ValidFilesMembers | dayu_widgets/browser.py:280-298 | A name is kept iff it was dropped, is a file and passes the extension test. |
| Browser.ValidFilesInOrder | dayu_widgets/browser.py:280-298 | Kept names are in drop order. |
| Browser.ValidFilesUnfiltered | dayu_widgets/browser.py:297-298 | Without filters every dropped file is kept. |
| Browser.Folders | dayu_widgets/browser.py:380-384 | The folder list is no longer than the dropped list. |
| Browser.FoldersMembers | dayu_widgets/browser.py:380-384 | A name is kept iff it was dropped and is a folder. |
| Browser.FoldersInOrder | dayu_widgets/browser.py:380-384 | Kept folders are in drop order. |
| Browser.Browser.constructor | dayu_widgets/browser.py:92-100 | The mixin starts with no path, no filters and the given multiple flag. |
| Browser.Browser.GetFilters | dayu_widgets/browser.py:102-108 | Returns the stored filters. |
| Browser.Browser.GetPath | dayu_widgets/browser.py:118-124 | Returns the stored path. |
| Browser.Browser.GetMultiple | dayu_widgets/browser.py:134-140 | Returns the stored multiple flag. |
| Browser.Browser.SetFilters | dayu_widgets/browser.py:102-116 | The getter returns what the setter stored. |
| Browser.Browser.SetPath | dayu_widgets/browser.py:118-132 | The getter returns what the setter stored. |
| Browser.Browser.SetMultiple | dayu_widgets/browser.py:134-148 | The getter returns what the setter stored. |
| Browser.Browser.BrowseFile | dayu_widgets/browser.py:29-56 | The open dialog is chosen by the mode and gets the filter string. A non-empty answer is emitted and sets the path, to the first file in multiple mode. When the path holds a dropped list, the dialog call raises and nothing is opened, emitted or stored. |
| Browser.Browser.BrowseFolder | dayu_widgets/browser.py:60-69 | The folder dialog opens at the current path with no name filter. A non-empty folder is emitted, as a one-element list in multiple mode, and becomes the path. When the path holds a dropped list, the dialog call raises and nothing is opened, emitted or stored. |
| Browser.Browser.SaveFile | dayu_widgets/browser.py:73-86 | The save dialog gets the same filter string as the open dialog. A non-empty answer is emitted and becomes the path. When the path holds a dropped list, the dialog call raises and nothing is opened, emitted or stored. |
| Browser.Browser.ValidFileList | dayu_widgets/browser.py:267-300 | The loop returns exactly the valid-file list. |
| Browser.Browser.DragEnterFiles | dayu_widgets/browser.py:240-251 | The drag is accepted iff it has a URI list and one valid file (or several, in multiple mode). |
| Browser.Browser.DropFiles | dayu_widgets/browser.py:253-265 | In multiple mode the whole list is emitted and stored. Otherwise the first file is. |
| Browser.Browser.DragEnterFolders | dayu_widgets/browser.py:372-388 | The same test as for files, applied to the dropped folders. |
| Browser.Browser.DropFolders | dayu_widgets/browser.py:390-405 | The list or the first folder is emitted, and the path becomes the first folder in both modes. |
| RenderCache.KeyIgnoresCase | dayu_widgets/qt/__init__.py:50 | Paths equal up to letter case share a key. |
| RenderCache.Key | dayu_widgets/qt/__init__.py:50 | The key is the lower-cased path followed by the colour, so the colour can be read back from its end and one path with different colours gives different keys. |
| RenderCache.RenderSvg | dayu_widgets/qt/__init__.py:21-41 | An icon cache with no colour at all loads the SVG as an icon. With a given colour, every marker is replaced by it before rendering. With no given colour, the theme's icon colour replaces the markers when it is set, and a pixmap cache renders the file unchanged when it is not. |
| RenderCache.RecolourMarkers | dayu_widgets/qt/__init__.py:25-31 | An SVG made of pieces that do not contain the marker, joined by markers, is rendered with exactly those markers recoloured. |
| RenderCache.Lookup | dayu_widgets/qt/__init__.py:43-58 | An unresolved path gives an empty image and the table unchanged. Otherwise the key maps to the returned image, stored images are returned, and the table only gains that key. |
| RenderCache.LookupMiss | dayu_widgets/qt/__init__.py:52-57 | A miss renders SVG paths and loads the others. |
| RenderCache.LookupTwice | dayu_widgets/qt/__init__.py:51-58 | A second identical call returns the same image and leaves the table alone. |
| RenderCache.LookupCaseInsensitive | dayu_widgets/qt/__init__.py:50-58 | Two paths equal up to case share the first call's image. |
| RenderCache.CacheDict.Call | dayu_widgets/qt/__init__.py:43-58 | The image and the new table are those of `Lookup`. |
| RenderCache.NewCaches | dayu_widgets/qt/__init__.py:94-95 | The pixmap and icon caches are distinct fresh instances with empty tables. |
| LineEdit.LineEdit.constructor | dayu_widgets/line_edit.py:27-45 | The history is the initial text and the margins are (2,0,2,0). There is no prefix or suffix, and the size is the default. |
| LineEdit.LineEdit.SetText | dayu_widgets/line_edit.py:124-127 | The history gains "\n" and the new text. |
| LineEdit.LineEdit.Clear | dayu_widgets/line_edit.py:129-132 | The text and the history become empty. |
| LineEdit.LineEdit.SetPrefixWidget | dayu_widgets/line_edit.py:81-99 | The old prefix is taken out and hidden, keeping its other properties. The new one is tagged left, sized and put first. The left margin grows by its width, never shrinking. The widget is returned. |
| LineEdit.LineEdit.SetSuffixWidget | dayu_widgets/line_edit.py:105-122 | The same on the right, with the new widget put last and the old suffix otherwise unchanged. |
| LineEdit.LineEdit.DropPrefix | dayu_widgets/line_edit.py:83-86 | The old prefix, if any, leaves the layout and is hidden; its size, combine and position are unchanged. |
| LineEdit.LineEdit.PutPrefix | dayu_widgets/line_edit.py:93-98 | The new widget is put first, the left margin grows by its width and it becomes the prefix. |
| LineEdit.LineEdit.DropSuffix | dayu_widgets/line_edit.py:107-110 | The old suffix, if any, leaves the layout and is hidden; its size, combine and position are unchanged. |
| LineEdit.LineEdit.PutSuffix | dayu_widgets/line_edit.py:117-121 | The new widget is put last, the right margin grows by its width and it becomes the suffix. |
| LineEdit.LineEdit.SetDayuSize | dayu_widgets/line_edit.py:54-65 | The size is stored and passed to a prefix or suffix that has one. The widgets' other properties, and everything else about the line edit, are unchanged. |
| LineEdit.LineEdit.KeyPress | dayu_widgets/line_edit.py:134-140 | Every key but Enter and Tab restarts the delay timer. |
| LineEdit.LineEdit.DelayTextChanged | dayu_widgets/line_edit.py:73-75 | The current text is emitted, the invariant is kept and nothing else changes. |
| LineEdit.LineEdit.TimerFires | dayu_widgets/line_edit.py:40-43 | The single-shot timer stops and the text is emitted. The invariant is kept and nothing else changes. |
| LineEdit.LineEdit.Huge | dayu_widgets/line_edit.py:200-203 | Sets the theme's huge size on the line edit and its sizable prefix and suffix, and returns the line edit. Nothing else changes. |
| LineEdit.LineEdit.Large | dayu_widgets/line_edit.py:205-208 | Sets the theme's large size on the line edit and its sizable prefix and suffix, and returns the line edit. Nothing else changes. |
| LineEdit.LineEdit.Medium | dayu_widgets/line_edit.py:210-213 | Sets the theme's medium size on the line edit and its sizable prefix and suffix, and returns the line edit. Nothing else changes. |
| LineEdit.LineEdit.Small | dayu_widgets/line_edit.py:215-218 | Sets the theme's small size on the line edit and its sizable prefix and suffix, and returns the line edit. Nothing else changes. |
| LineEdit.LineEdit.Tiny | dayu_widgets/line_edit.py:220-223 | Sets the theme's tiny size on the line edit and its sizable prefix and suffix, and returns the line edit. Nothing else changes. |
| LineEdit.Widget.SetDayuSize | dayu_widgets/line_edit.py:61-64 | A forwarded size is stored on the widget. |
| LineEdit.Widget.Hide | dayu_widgets/line_edit.py:86 | The widget is hidden and nothing else about it changes. |
| LineEdit.Widget.Place | dayu_widgets/line_edit.py:88-91 | The widget gets the combine and position properties, and the size when it has `set_dayu_size`. |
| LineEdit.RemoveFirstKeepsStretch | dayu_widgets/line_edit.py:84-85 | Taking the old prefix or suffix out never removes the stretch. |
| LineEdit.HistoryLines | dayu_widgets/line_edit.py:124-132 | Splitting the history at line breaks gives the starting text and every text set since, in order. |
| LineEdit.History | dayu_widgets/line_edit.py:124-127 | The history starts with the starting text, and each text set adds at least its line break. |
| LineEdit.HistoryIsJoin | dayu_widgets/line_edit.py:124-127 | The history is the starting text and every text set since, joined by line breaks. |
| LineEdit.SumGrows | dayu_widgets/line_edit.py:93-95 | Installing a widget adds its width to the margin, and the margin never shrinks. |
| MenuTab.MenuTabWidget.constructor | dayu_widgets3/menu_tab_widget.py:65-83 | The bar is the block group followed by a stretch, with margins (10,0,10,0), and the height is the large size plus 10. |
| MenuTab.MenuTabWidget.AppendWidget | dayu_widgets3/menu_tab_widget.py:85-87 | The widget goes at the right end of the bar. |
| MenuTab.MenuTabWidget.InsertWidget | dayu_widgets3/menu_tab_widget.py:89-91 | The widget goes at the left end of the bar. |
| MenuTab.MenuTabWidget.AddMenu | dayu_widgets3/menu_tab_widget.py:93-95 | The description is added to the block group under the same index. The group's other state and the bar are unchanged. |
| ProgressBar.ColorFor | dayu_widgets3/progress_bar.py:32-36 | The colour is success iff the value is at least the maximum, and normal otherwise. It is always a known status. |
| ProgressBar.RunKnown | dayu_widgets3/progress_bar.py:18-57 | From the initial status, any run of shortcuts and colour updates ends in one of the three constants. |
| ProgressBar.RunLast | dayu_widgets3/progress_bar.py:32-57 | The status after a run is decided by its last call. |
| ProgressBar.ProgressBar.constructor | dayu_widgets3/progress_bar.py:22-25 | The status starts as "primary". |
| ProgressBar.ProgressBar.GetStatus | dayu_widgets3/progress_bar.py:38-39 | The getter returns the stored status. |
| ProgressBar.ProgressBar.SetStatus | dayu_widgets3/progress_bar.py:41-43 | After the setter, the getter returns the value set. |
| ProgressBar.ProgressBar.UpdateColor | dayu_widgets3/progress_bar.py:31-36 | The status becomes success iff the value reaches the maximum. |
| ProgressBar.ProgressBar.Normal | dayu_widgets3/progress_bar.py:47-49 | Sets "primary" and returns the bar. |
| ProgressBar.ProgressBar.Error | dayu_widgets3/progress_bar.py:51-53 | Sets "error" and returns the bar. |
| ProgressBar.ProgressBar.Success | dayu_widgets3/progress_bar.py:55-57 | Sets "success" and returns the bar. |

## Left out

- Native file dialogs: each dialog's answer is a method parameter, and the dialog opened is recorded as a request. A path holding a list makes the call raise, and then no request is recorded. The exception itself is not modelled, only that the slot stops.
- `os.path.isfile` and `os.path.isdir`: these are predicates on names, given as parameters.
- `url.toLocalFile()`: the dropped items are given directly as local names.
- The macOS `osascript` subprocess in `_get_valid_file_list`: it is process I/O and is left out.
- `os.path.splitext` follows the POSIX rules. The Windows rules, which also split at '\\' and drive letters, are left out.
- SVG and raster rendering (`QSvgRenderer`, `QPainter`, `QPixmap`, `QIcon`): an image records only what produced it.
- Reading the SVG file: it is a function parameter.
- `get_static_file` path resolution: it is a partial function parameter.
- `get_scale_factor` and the spacing it computes: floating-point DPI arithmetic.
- The `application` context manager: it is event-loop and signal handling.
- `str.lower` is modelled on ASCII letters only, with no Unicode case mapping.
- Qt property writes of arbitrary values (QVariant conversion): for the "checked" and "checkable" keys, Python truthiness stands in for the conversion to bool.
- Signal and slot wiring (`clicked`, `toggled`, `idClicked`, `buttonClicked`, `valueChanged`): emissions are an appended event log and slot calls are method calls.
- `auto_color`, the signal connection that makes value changes call `_update_color`: it is left out.
- `style().polish`, painting, cursor positioning, tooltips and translations.
- The check-box group's context menu: its actions call `_slot_set_select`, which is modelled.
- The push group's `dayu_size` and `dayu_type` and its `create_button`: they are styling only, and a push button is modelled as not checkable.
- The timer interval and `set_delay_duration`: the delay timer is modelled as a running flag and a count of its starts, with no durations.
- The toolkit's own text editing inside `keyPressEvent`: the resulting text is a parameter.
- `MLineEdit`'s search, error, search-engine, file, folder and password shortcuts: they build specific child widgets, dialogs and echo modes.
- The getters `get_prefix_widget` and `get_suffix_widget`: they are the `prefix` and `suffix` fields.
- The `focus_shadow_mixin` decorator.
- Widget widths are fixed per widget, not recomputed by the layout engine.
- Re-adding a widget that is already in a layout: it is modelled as a plain list insertion.
- dayu_widgets3's `MButtonGroupBase` is not part of this model. The block group uses the dayu_widgets base group's `add_button`.
- The theme constants come in as a `Theme` value: the theme module is not part of this model.
- `MMenuTabWidget`'s outer vertical layout, divider and spacing: they are visual only.
- The block group's spacing and the bar's object name and style attribute.
- `ProgressBar.ProgressBar.SetMaximum` stands for the toolkit's `setMaximum`. The value and the minimum of the range are not modelled.
- ButtonGroup.Group.SetCheckedId: in a non-exclusive tool group, re-checking an already-checked button leaves the checked id where the toolkit put it. The checked id is claimed only for an exclusive group or a previously unchecked button (`ButtonGroup.CheckIdEffect`).
- The error messages that the radio and tool groups' `set_dayu_checked` print for an unknown id (button_group.py lines 390 and 479): console output is not modelled. Only the unchanged state is.
- `button(id)` is modelled as the first registered button with the id (`ButtonGroup.IndexOfId`). The toolkit looks ids up in a hash, so with duplicate ids the button found may differ. The model does not capture which duplicate the toolkit returns.
