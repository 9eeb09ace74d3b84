/** The state the browser buttons share (last path, multiple selection, extension
    filters) and what their dialog slots and drag-and-drop handlers do with it. The
    file dialogs and the file-system tests are inputs: a dialog's answer is a parameter
    and "is a file" / "is a folder" are predicates on names. */
module Browser {
  import opened Common
  import opened Strings

  /** `_path`: nothing yet, one path, or the list a multiple file drop stores. */
  datatype PathValue = NoPath | OnePath(path: string) | PathList(paths: seq<string>)

  /** The signals: `sig_file_changed`, `sig_files_changed`, `sig_folder_changed`,
      `sig_folders_changed`. */
  datatype Emission =
    | FileChanged(file: string)
    | FilesChanged(files: seq<string>)
    | FolderChanged(folder: string)
    | FoldersChanged(folders: seq<string>)

  /** The dialog a slot opens. */
  datatype DialogKind = OpenFileDialog | OpenFilesDialog | FolderDialog | SaveDialog

  /** A dialog opened by a slot: which one, its title, the start path and the name filter
      ("" for the folder dialog, which takes none). */
  datatype DialogRequest = DialogRequest(kind: DialogKind, title: string, start: PathValue, filter: string)

  const AnyFile: string := "Any File(*)"

  /** The glob pattern of each extension: "*" in front of it. */
  function Patterns(filters: seq<string>): (ps: seq<string>)
    ensures |ps| == |filters|
    ensures forall i :: 0 <= i < |filters| ==> ps[i] == "*" + filters[i]
  {
    seq(|filters|, i requires 0 <= i < |filters| => "*" + filters[i])
  }

  /** The name filter of the file dialogs: the patterns of all extensions inside
      "File(...)", or any file when there are no filters. */
  function FilterString(filters: seq<string>): string
  {
    if filters != [] then "File(" + Join(Patterns(filters), " ") + ")" else AnyFile
  }

  /** The filter lets any file through exactly when there are no extension filters. */
  lemma FilterStringAny(filters: seq<string>)
    ensures FilterString(filters) == AnyFile <==> filters == []
  {
    if filters != [] {
      assert FilterString(filters)[0] == 'F';
      assert AnyFile[0] == 'A';
    }
  }

  /** With extensions that hold no blank, the patterns between "File(" and ")" can be read
      back by splitting on blanks, and dropping each pattern's "*" gives the extensions. */
  lemma FilterStringRecoversFilters(filters: seq<string>)
    requires filters != []
    requires forall i :: 0 <= i < |filters| ==> ' ' !in filters[i]
    ensures var f := FilterString(filters);
      && |f| >= 6 && f[..5] == "File(" && f[|f| - 1] == ')'
      && var parts := Split(f[5..|f| - 1], ' ');
      && |parts| == |filters|
      && forall i :: 0 <= i < |filters| ==> parts[i] == "*" + filters[i] && parts[i][1..] == filters[i]
  {
    var ps := Patterns(filters);
    forall i | 0 <= i < |ps|
      ensures ' ' !in ps[i]
    {
      assert ps[i] == ['*'] + filters[i];
    }
    SplitJoin(ps, ' ');
    var inner := Join(ps, " ");
    var f := FilterString(filters);
    assert f == "File(" + inner + ")";
    assert f[5..|f| - 1] == inner;
  }

  /** `os.path.splitext(name)[-1]` on POSIX paths: from the last dot of the last path
      component to the end, provided that dot is not part of the component's leading
      dots; otherwise empty. */
  function Extension(name: string): (e: string)
    ensures e == [] || (e[0] == '.' && EndsWith(name, e) && '.' !in e[1..] && '/' !in e)
  {
    var sep := LastIndexOf(name, '/');
    var dot := LastIndexOf(name, '.');
    if dot > sep && exists k :: sep + 1 <= k < dot && name[k] != '.' then
      var e := name[dot..];
      assert forall j :: 1 <= j < |e| ==> e[j] == name[dot + j];
      e
    else []
  }

  lemma LastIndexOfAt(s: string, c: char, k: int)
    requires 0 <= k < |s| && s[k] == c
    requires forall j :: k < j < |s| ==> s[j] != c
    ensures LastIndexOf(s, c) == k
  {
  }

  /** A name built from a folder, a stem with some character other than a dot, and an
      extension yields that extension. */
  lemma ExtensionOfName(dir: string, stem: string, x: string)
    requires '/' !in stem && '/' !in x && '.' !in x
    requires exists k :: 0 <= k < |stem| && stem[k] != '.'
    ensures Extension(dir + "/" + stem + "." + x) == "." + x
  {
    var name := dir + "/" + stem + "." + x;
    var sep := |dir|;
    var dot := |dir| + 1 + |stem|;
    assert forall j :: sep < j < dot ==> name[j] == stem[j - sep - 1];
    assert forall j :: dot < j < |name| ==> name[j] == x[j - dot - 1];
    LastIndexOfAt(name, '/', sep);
    LastIndexOfAt(name, '.', dot);
    var k :| 0 <= k < |stem| && stem[k] != '.';
    assert name[sep + 1 + k] != '.';
    assert name[dot..] == "." + x;
  }

  /** A hidden file's leading dot does not start an extension. */
  lemma HiddenFileHasNoExtension(dir: string, x: string)
    requires '/' !in x && '.' !in x
    ensures Extension(dir + "/." + x) == []
  {
    var name := dir + "/." + x;
    var sep := |dir|;
    assert forall j :: sep + 1 < j < |name| ==> name[j] == x[j - sep - 2];
    LastIndexOfAt(name, '/', sep);
    LastIndexOfAt(name, '.', sep + 1);
  }

  /** A dropped name passes the extension test when there are no filters or its
      extension is one of them. */
  predicate Accepted(name: string, filters: seq<string>)
  {
    filters == [] || Extension(name) in filters
  }

  /** `_get_valid_file_list` as a function: the dropped names that are files and pass the
      extension test, in drop order. */
  function ValidFiles(names: seq<string>, isFile: string -> bool, filters: seq<string>): (fs: seq<string>)
    ensures |fs| <= |names|
    ensures forall i :: 0 <= i < |fs| ==> isFile(fs[i]) && Accepted(fs[i], filters)
    decreases |names|
  {
    if names == [] then []
    else
      var last := names[|names| - 1];
      ValidFiles(names[..|names| - 1], isFile, filters) + (if isFile(last) && Accepted(last, filters) then [last] else [])
  }

  /** A name is kept exactly when it was dropped, is a file and passes the extension test. */
  lemma {:induction false} ValidFilesMembers(names: seq<string>, isFile: string -> bool, filters: seq<string>, x: string)
    ensures x in ValidFiles(names, isFile, filters) <==> x in names && isFile(x) && Accepted(x, filters)
    decreases |names|
  {
    if names != [] {
      var init := names[..|names| - 1];
      ValidFilesMembers(init, isFile, filters, x);
      assert names == init + [names[|names| - 1]];
    }
  }

  /** The kept names are in drop order. */
  lemma {:induction false} ValidFilesInOrder(names: seq<string>, isFile: string -> bool, filters: seq<string>)
    ensures IsSubsequence(ValidFiles(names, isFile, filters), names)
    decreases |names|
  {
    if names == [] {
    } else {
      var init := names[..|names| - 1];
      var last := names[|names| - 1];
      assert names == init + [last];
      ValidFilesInOrder(init, isFile, filters);
      SubsequenceAppend(ValidFiles(init, isFile, filters), init, last);
      if isFile(last) && Accepted(last, filters) {
        assert ValidFiles(names, isFile, filters) == ValidFiles(init, isFile, filters) + [last];
      } else {
        assert ValidFiles(names, isFile, filters) == ValidFiles(init, isFile, filters);
      }
    }
  }

  /** Without filters only the file test counts. */
  lemma {:induction false} ValidFilesUnfiltered(names: seq<string>, isFile: string -> bool)
    requires forall i :: 0 <= i < |names| ==> isFile(names[i])
    ensures ValidFiles(names, isFile, []) == names
    decreases |names|
  {
    if names != [] {
      ValidFilesUnfiltered(names[..|names| - 1], isFile);
    }
  }

  /** The folder list of the folder button's drag handlers: the dropped names that are
      folders, in drop order. */
  function Folders(names: seq<string>, isDir: string -> bool): (fs: seq<string>)
    ensures |fs| <= |names|
  {
    if names == [] then []
    else (if isDir(names[0]) then [names[0]] else []) + Folders(names[1..], isDir)
  }

  lemma {:induction false} FoldersMembers(names: seq<string>, isDir: string -> bool, x: string)
    ensures x in Folders(names, isDir) <==> x in names && isDir(x)
    decreases |names|
  {
    if names != [] {
      FoldersMembers(names[1..], isDir, x);
      assert names == [names[0]] + names[1..];
    }
  }

  lemma {:induction false} FoldersInOrder(names: seq<string>, isDir: string -> bool)
    ensures IsSubsequence(Folders(names, isDir), names)
    decreases |names|
  {
    if names != [] {
      var rest := Folders(names[1..], isDir);
      FoldersInOrder(names[1..], isDir);
      if isDir(names[0]) {
        assert ([names[0]] + rest)[1..] == rest;
      } else if rest != [] {
        FoldersMembers(names[1..], isDir, rest[0]);
        assert Folders(names, isDir) == rest;
        assert rest[0] != names[0];
      }
    }
  }

  /** The drag-enter test on the number of valid items: exactly one, or more than one
      when multiple selection is on. An empty drop is never accepted, and a drop of several
      only in multiple mode. */
  function AcceptsDrag(count: int, multiple: bool): (ok: bool)
    ensures ok ==> count >= 1 && (multiple || count == 1)
    ensures count == 1 || (multiple && count >= 1) ==> ok
  {
    count == 1 || (count > 1 && multiple)
  }

  /** The state of `MBrowserMixin` together with the signals the buttons emit and the dialogs
      they open. One class serves every browser button: each button class uses the slots
      and drag handlers that belong to it. */
  class Browser {
    var path: PathValue
    var multiple: bool
    var filters: seq<string>
    var events: seq<Emission>
    var requests: seq<DialogRequest>

    /** `MBrowserMixin.__init__`: no path, no filters. */
    constructor (multiple: bool)
      ensures path == NoPath && this.multiple == multiple && filters == []
      ensures events == [] && requests == []
    {
      path := NoPath;
      this.multiple := multiple;
      filters := [];
      events := [];
      requests := [];
    }

    /** `get_dayu_filters`: the stored value, as the matching setter left it. */
    function GetFilters(): (v: seq<string>)
      reads this
      ensures v == filters
    {
      filters
    }

    method SetFilters(value: seq<string>)
      modifies this
      ensures GetFilters() == value
      ensures path == old(path) && multiple == old(multiple) && events == old(events) && requests == old(requests)
    {
      filters := value;
    }

    /** `get_dayu_path`: the stored value, as the matching setter left it. */
    function GetPath(): (v: PathValue)
      reads this
      ensures v == path
    {
      path
    }

    method SetPath(value: PathValue)
      modifies this
      ensures GetPath() == value
      ensures multiple == old(multiple) && filters == old(filters) && events == old(events) && requests == old(requests)
    {
      path := value;
    }

    /** `get_dayu_multiple`: the stored value, as the matching setter left it. */
    function GetMultiple(): (v: bool)
      reads this
      ensures v == multiple
    {
      multiple
    }

    method SetMultiple(value: bool)
      modifies this
      ensures GetMultiple() == value
      ensures path == old(path) && filters == old(filters) && events == old(events) && requests == old(requests)
    {
      multiple := value;
    }

    /** The dialog calls take the path as their start directory, a string: after a multiple
        file drop has stored a list, the call raises before the dialog opens, and the slot
        ends with nothing opened, emitted or stored. */
    predicate DialogRaises()
      reads this
    {
      path.PathList?
    }

    /** `_slot_browser_file`: opens the file dialog (several files in multiple mode, one
        otherwise) at the current path with the extension filter; `chosenFiles` or
        `chosenFile` is its answer. A non-empty answer is emitted and becomes the path (its
        first file in multiple mode). */
    method BrowseFile(chosenFiles: seq<string>, chosenFile: string)
      modifies this
      ensures multiple == old(multiple) && filters == old(filters)
      ensures old(DialogRaises()) ==> requests == old(requests) && path == old(path) && events == old(events)
      ensures !old(DialogRaises()) ==>
        requests == old(requests) + [DialogRequest(if multiple then OpenFilesDialog else OpenFileDialog, "Browser File", old(path), FilterString(filters))]
      ensures !old(DialogRaises()) && multiple && chosenFiles != [] ==>
        path == OnePath(chosenFiles[0]) && events == old(events) + [FilesChanged(chosenFiles)]
      ensures !old(DialogRaises()) && !multiple && chosenFile != "" ==>
        path == OnePath(chosenFile) && events == old(events) + [FileChanged(chosenFile)]
      ensures (if multiple then chosenFiles == [] else chosenFile == "") ==>
        path == old(path) && events == old(events)
    {
      var filter := FilterString(filters);
      if DialogRaises() {
        return;
      }
      if multiple {
        requests := requests + [DialogRequest(OpenFilesDialog, "Browser File", path, filter)];
        if chosenFiles != [] {
          events := events + [FilesChanged(chosenFiles)];
          SetPath(OnePath(chosenFiles[0]));
        }
      } else {
        requests := requests + [DialogRequest(OpenFileDialog, "Browser File", path, filter)];
        if chosenFile != "" {
          events := events + [FileChanged(chosenFile)];
          SetPath(OnePath(chosenFile));
        }
      }
    }

    /** `_slot_browser_folder`: opens the folder dialog at the current path; a non-empty answer
        is emitted (as a one-element list in multiple mode) and becomes the path. */
    method BrowseFolder(chosenFolder: string)
      modifies this
      ensures multiple == old(multiple) && filters == old(filters)
      ensures old(DialogRaises()) ==> requests == old(requests) && path == old(path) && events == old(events)
      ensures !old(DialogRaises()) ==>
        requests == old(requests) + [DialogRequest(FolderDialog, "Browser Folder", old(path), "")]
      ensures !old(DialogRaises()) && chosenFolder != "" ==>
        && path == OnePath(chosenFolder)
        && events == old(events) + [if multiple then FoldersChanged([chosenFolder]) else FolderChanged(chosenFolder)]
      ensures chosenFolder == "" ==> path == old(path) && events == old(events)
    {
      if DialogRaises() {
        return;
      }
      requests := requests + [DialogRequest(FolderDialog, "Browser Folder", path, "")];
      if chosenFolder != "" {
        if multiple {
          events := events + [FoldersChanged([chosenFolder])];
        } else {
          events := events + [FolderChanged(chosenFolder)];
        }
        SetPath(OnePath(chosenFolder));
      }
    }

    /** `_slot_save_file`: builds the filter its own way, opens the save dialog at the current
        path; a non-empty answer is emitted and becomes the path. The filter it builds is
        the one the browse dialog uses. */
    method SaveFile(chosenFile: string)
      modifies this
      ensures multiple == old(multiple) && filters == old(filters)
      ensures old(DialogRaises()) ==> requests == old(requests) && path == old(path) && events == old(events)
      ensures !old(DialogRaises()) ==>
        requests == old(requests) + [DialogRequest(SaveDialog, "Save File", old(path), FilterString(filters))]
      ensures !old(DialogRaises()) && chosenFile != "" ==>
        path == OnePath(chosenFile) && events == old(events) + [FileChanged(chosenFile)]
      ensures chosenFile == "" ==> path == old(path) && events == old(events)
    {
      var filter := AnyFile;
      if filters != [] {
        var extensions := Patterns(filters);
        filter := "File(" + Join(extensions, " ") + ")";
      }
      if DialogRaises() {
        return;
      }
      requests := requests + [DialogRequest(SaveDialog, "Save File", path, filter)];
      if chosenFile != "" {
        events := events + [FileChanged(chosenFile)];
        SetPath(OnePath(chosenFile));
      }
    }

    /** `_get_valid_file_list`: the loop over the dropped names, keeping files whose extension
        passes the filters. */
    method ValidFileList(names: seq<string>, isFile: string -> bool) returns (list: seq<string>)
      ensures list == ValidFiles(names, isFile, filters)
    {
      list := [];
      var i := 0;
      while i < |names|
        invariant 0 <= i <= |names|
        invariant list == ValidFiles(names[..i], isFile, filters)
      {
        var name := names[i];
        assert names[..i + 1][..i] == names[..i];
        if isFile(name) {
          if filters != [] {
            if Extension(name) in filters {
              list := list + [name];
            }
          } else {
            list := list + [name];
          }
        }
        i := i + 1;
      }
      assert names[..i] == names;
    }

    /** `MDragFileButton.dragEnterEvent`: the drag is accepted when it carries a URI list and
        the number of valid files passes the drag test. */
    method DragEnterFiles(hasUriList: bool, names: seq<string>, isFile: string -> bool) returns (accepted: bool)
      ensures accepted <==> hasUriList && AcceptsDrag(|ValidFiles(names, isFile, filters)|, multiple)
      ensures accepted ==> ValidFiles(names, isFile, filters) != [] && (multiple || |ValidFiles(names, isFile, filters)| == 1)
    {
      accepted := false;
      if hasUriList {
        var fileList := ValidFileList(names, isFile);
        var count := |fileList|;
        if count == 1 || (count > 1 && multiple) {
          accepted := true;
        }
      }
    }

    /** `MDragFileButton.dropEvent`: in multiple mode the valid files are emitted and stored
        as the path; otherwise the first of them. The handler reads the first valid file
        unguarded, so a single-mode drop needs one. */
    method DropFiles(names: seq<string>, isFile: string -> bool)
      requires multiple || ValidFiles(names, isFile, filters) != []
      modifies this
      ensures multiple == old(multiple) && filters == old(filters) && requests == old(requests)
      ensures var list := ValidFiles(names, isFile, filters);
        if multiple then path == PathList(list) && events == old(events) + [FilesChanged(list)]
        else path == OnePath(list[0]) && events == old(events) + [FileChanged(list[0])]
    {
      var fileList := ValidFileList(names, isFile);
      if multiple {
        events := events + [FilesChanged(fileList)];
        SetPath(PathList(fileList));
      } else {
        events := events + [FileChanged(fileList[0])];
        SetPath(OnePath(fileList[0]));
      }
    }

    /** `MDragFolderButton.dragEnterEvent`: the same test on the dropped folders. */
    method DragEnterFolders(hasUriList: bool, names: seq<string>, isDir: string -> bool) returns (accepted: bool)
      ensures accepted <==> hasUriList && AcceptsDrag(|Folders(names, isDir)|, multiple)
      ensures accepted ==> Folders(names, isDir) != [] && (multiple || |Folders(names, isDir)| == 1)
    {
      accepted := false;
      if hasUriList {
        var folderList := Folders(names, isDir);
        var count := |folderList|;
        if count == 1 || (count > 1 && multiple) {
          accepted := true;
        }
      }
    }

    /** `MDragFolderButton.dropEvent`: the folders are emitted (the list in multiple mode, the
        first one otherwise), and the path becomes the first folder in both modes. The
        handler reads the first folder unguarded, so a drop needs one. */
    method DropFolders(names: seq<string>, isDir: string -> bool)
      requires Folders(names, isDir) != []
      modifies this
      ensures multiple == old(multiple) && filters == old(filters) && requests == old(requests)
      ensures var list := Folders(names, isDir);
        && path == OnePath(list[0])
        && events == old(events) + [if multiple then FoldersChanged(list) else FolderChanged(list[0])]
    {
      var folderList := Folders(names, isDir);
      if multiple {
        events := events + [FoldersChanged(folderList)];
      } else {
        events := events + [FolderChanged(folderList[0])];
      }
      SetPath(OnePath(folderList[0]));
    }
  }
}
