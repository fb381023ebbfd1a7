/** The editor tab actions of src/overmind/Editor/actions.ts. The editor
    keeps a dictionary of files by name, each with an `open` and a `dirty`
    flag, the list of open tabs and the name of the active file. Saving to
    local storage after each action is not modelled. */
module EditorActions {
  import opened Wrappers
  import JsText

  /** A file of the editor's dictionary (`File` of src/overmind/rootState.ts). */
  datatype File = File(name: string, content: string, dirty: bool, open: bool)

  /** A breakpoint of the editor (`EditorBreakpoint` of
      src/overmind/Editor/state.ts); an absent `disabled` is false. */
  datatype EditorBreakpoint = EditorBreakpoint(fileId: string, line: int, disabled: bool)

  /** A snapshot of `state.Editor`. */
  datatype Editor = Editor(files: map<string, File>, openTabs: seq<string>, openFile: Option<string>)

  /** The state an action leaves behind, and whether it threw a TypeError
      on the way (a dictionary entry that is not there). */
  datatype Transition = Transition(editor: Editor, threw: bool)

  // -------------------------------------------- the actions on snapshots

  /** `openFile(name)`: only a file in the dictionary is opened. */
  function Opened(e: Editor, name: string): (r: Editor)
    ensures name !in e.files ==> r == e
    ensures name in e.files ==>
      var f := e.files[name];
      r.files == e.files[name := f.(open := true)] && r.openFile == Some(f.name)
      && r.openTabs == (if f.name in e.openTabs then e.openTabs else e.openTabs + [f.name])
  {
    if name !in e.files then e
    else
      var f := e.files[name];
      var tabs := if f.name in e.openTabs then e.openTabs else e.openTabs + [f.name];
      Editor(e.files[name := f.(open := true)], tabs, Some(f.name))
  }

  /** `openTabs.filter(t => files[t].open)`, or None when a tab is not in
      the dictionary (reading `.open` of undefined). */
  function OpenTabs(tabs: seq<string>, files: map<string, File>): Option<seq<string>> {
    if tabs == [] then Some([])
    else if tabs[0] !in files then None
    else
      match OpenTabs(tabs[1..], files)
      case None => None
      case Some(rest) => Some(if files[tabs[0]].open then [tabs[0]] + rest else rest)
  }

  /** `closeFile(name)`: clear the flag, keep the open tabs, and make the
      last of them active, or none. */
  function Closed(e: Editor, name: string): Transition {
    if name !in e.files then Transition(e, false)
    else
      var files := e.files[name := e.files[name].(open := false)];
      match OpenTabs(e.openTabs, files)
      case None => Transition(e.(files := files), true)
      case Some(tabs) =>
        var e2 := Editor(files, tabs, e.openFile);
        if |tabs| > 0 then Transition(Opened(e2, tabs[|tabs| - 1]), false)
        else Transition(e2.(openFile := None), false)
  }

  /** `closeAllFiles`. */
  function ClosedAll(e: Editor): (r: Editor)
    ensures r.files == map[] && r.openTabs == [] && r.openFile == None
  {
    Editor(map[], [], None)
  }

  /** The names of the open files, in key order. */
  function OpenNames(order: seq<string>, files: map<string, File>): seq<string>
    requires forall k :: k in order ==> k in files
  {
    if order == [] then []
    else (if files[order[0]].open then [files[order[0]].name] else []) + OpenNames(order[1..], files)
  }

  /** `loadFiles(files)`: the new dictionary and its open tabs are stored
      first; the first tab is then opened, or the first file. An empty
      dictionary throws there. */
  function Loaded(e: Editor, files: map<string, File>, order: seq<string>): (r: Transition)
    requires JsText.KeyOrder(order, files)
    ensures r.editor.files.Keys == files.Keys
    ensures r.threw <==> files == map[]
  {
    var tabs := OpenNames(order, files);
    var e2 := e.(files := files, openTabs := tabs);
    if |tabs| > 0 then Transition(Opened(e2, tabs[0]), false)
    else if order == [] then
      assert files.Keys == {} by {
        assert forall k :: k in files ==> k in order;
      }
      Transition(e2, true)
    else Transition(Opened(e2, files[order[0]].name), false)
  }

  /** `updateFile({name, content, dirty})`: the content is replaced only by a
      non-empty one, the dirty flag always; an unknown name throws before
      anything changes. */
  function Updated(e: Editor, name: string, content: Option<string>, dirty: bool): (r: Transition)
    ensures name !in e.files ==> r == Transition(e, true)
    ensures name in e.files ==> !r.threw && r.editor.openTabs == e.openTabs && r.editor.openFile == e.openFile
  {
    if name !in e.files then Transition(e, true)
    else
      var f := e.files[name];
      var f2 := if content.Some? && content.value != "" then f.(content := content.value) else f;
      var files := e.files[name := f2.(dirty := dirty)];
      var key := ActiveKey(e.openTabs, name);
      Transition(e.(files := if key in files then files[key := files[key].(dirty := dirty)] else files), false)
  }

  /** The key `files[openTabs.find(t => t === name)]` reads: the name if it
      is a tab, else the text of `undefined`. */
  function ActiveKey(tabs: seq<string>, name: string): (key: string)
    ensures name in tabs ==> key == name
    ensures name !in tabs ==> key == "undefined"
  {
    if name in tabs then name else "undefined"
  }

  /** The part of `removeFile(name)` after the user confirmed: close the
      file, then drop it from the dictionary. */
  function Removed(e: Editor, name: string): Transition {
    var c := Closed(e, name);
    if c.threw then c
    else Transition(c.editor.(files := c.editor.files - {name}), false)
  }

  // ---------------------------------------------------------- the state

  class EditorState {
    var files: map<string, File>
    var openTabs: seq<string>
    var openFile: Option<string>

    function State(): Editor
      reads this
    {
      Editor(files, openTabs, openFile)
    }

    constructor ()
      ensures State() == Editor(map[], [], None)
    {
      files := map[];
      openTabs := [];
      openFile := None;
    }

    method OpenFile(name: string)
      modifies this
      ensures State() == Opened(old(State()), name)
    {
      if name in files {
        var file := files[name];
        files := files[name := file.(open := true)];
        openFile := Some(file.name);
        if file.name !in openTabs {
          openTabs := openTabs + [file.name];
        }
      }
    }

    method CloseFile(name: string) returns (threw: bool)
      modifies this
      ensures Transition(State(), threw) == Closed(old(State()), name)
    {
      if name !in files {
        return false;
      }
      files := files[name := files[name].(open := false)];
      var kept := OpenTabs(openTabs, files);
      if kept.None? {
        return true;
      }
      openTabs := kept.value;
      if |openTabs| > 0 {
        OpenFile(openTabs[|openTabs| - 1]);
      } else {
        openFile := None;
      }
      threw := false;
    }

    method CloseAllFiles()
      modifies this
      ensures State() == ClosedAll(old(State()))
    {
      files := map[];
      openFile := None;
      openTabs := [];
    }

    method LoadFiles(newFiles: map<string, File>, order: seq<string>) returns (threw: bool)
      requires JsText.KeyOrder(order, newFiles)
      modifies this
      ensures Transition(State(), threw) == Loaded(old(State()), newFiles, order)
    {
      files := newFiles;
      openTabs := OpenNames(order, newFiles);
      if |openTabs| > 0 {
        OpenFile(openTabs[0]);
      } else if |order| == 0 {
        return true;
      } else {
        OpenFile(files[order[0]].name);
      }
      threw := false;
    }

    method UpdateFile(name: string, content: Option<string>, dirty: bool) returns (threw: bool)
      modifies this
      ensures Transition(State(), threw) == Updated(old(State()), name, content, dirty)
    {
      if name !in files {
        return true;
      }
      var file := files[name];
      if content.Some? && content.value != "" {
        file := file.(content := content.value);
      }
      files := files[name := file.(dirty := dirty)];
      var key := ActiveKey(openTabs, name);
      if key in files {
        files := files[key := files[key].(dirty := dirty)];
      }
      threw := false;
    }

    /** `removeFile` once the user has answered the confirmation. */
    method RemoveFile(name: string, confirmed: bool) returns (threw: bool)
      modifies this
      ensures confirmed ==> Transition(State(), threw) == Removed(old(State()), name)
      ensures !confirmed ==> State() == old(State()) && !threw
    {
      threw := false;
      if confirmed {
        threw := CloseFile(name);
        if !threw {
          files := files - {name};
        }
      }
    }
  }

  // --------------------------------------------------------- properties

  /** The editor's own invariant: every file is stored under its name, the
      tabs are exactly the open files, each once. */
  ghost predicate Valid(e: Editor) {
    (forall k :: k in e.files ==> e.files[k].name == k)
    && (forall k :: k in e.files ==> (e.files[k].open <==> k in e.openTabs))
    && (forall t :: t in e.openTabs ==> t in e.files)
    && (forall i, j :: 0 <= i < j < |e.openTabs| ==> e.openTabs[i] != e.openTabs[j])
  }

  /** Opening twice is opening once, and opening keeps the invariant. */
  lemma OpenedIdempotent(e: Editor, name: string)
    ensures Opened(Opened(e, name), name) == Opened(e, name)
    ensures Valid(e) ==> Valid(Opened(e, name))
  {
    if name in e.files && Valid(e) {
      var r := Opened(e, name);
      forall i, j | 0 <= i < j < |r.openTabs|
        ensures r.openTabs[i] != r.openTabs[j]
      {
        if j == |e.openTabs| {
          assert r.openTabs[i] in e.openTabs;
        }
      }
    }
  }

  /** `tabs` without `name`, order kept. */
  function Without(tabs: seq<string>, name: string): (r: seq<string>)
    ensures forall t :: t in r <==> t in tabs && t != name
  {
    if tabs == [] then []
    else (if tabs[0] == name then [] else [tabs[0]]) + Without(tabs[1..], name)
  }

  lemma {:induction false} OpenTabsWithout(tabs: seq<string>, files: map<string, File>, name: string)
    requires forall t :: t in tabs ==> t in files && (t != name ==> files[t].open)
    requires name in files && !files[name].open
    ensures OpenTabs(tabs, files) == Some(Without(tabs, name))
  {
    if tabs != [] {
      assert forall t :: t in tabs[1..] ==> t in tabs;
      OpenTabsWithout(tabs[1..], files, name);
      var rest := Without(tabs[1..], name);
      assert tabs[0] in tabs && tabs[0] in files;
      if tabs[0] == name {
        assert Without(tabs, name) == [] + rest;
        assert [] + rest == rest;
        assert OpenTabs(tabs, files) == Some(rest);
      } else {
        assert files[tabs[0]].open;
        assert Without(tabs, name) == [tabs[0]] + rest;
        assert OpenTabs(tabs, files) == Some([tabs[0]] + rest);
      }
    }
  }

  lemma {:induction false} WithoutDistinct(tabs: seq<string>, name: string)
    requires forall i, j :: 0 <= i < j < |tabs| ==> tabs[i] != tabs[j]
    ensures forall i, j :: 0 <= i < j < |Without(tabs, name)| ==> Without(tabs, name)[i] != Without(tabs, name)[j]
  {
    if tabs != [] {
      WithoutDistinct(tabs[1..], name);
      assert tabs[0] !in tabs[1..];
    }
  }

  /** Opening a tab that is already open only makes it the active file. */
  lemma OpenedOpenTab(e: Editor, t: string)
    requires t in e.files && e.files[t].open && e.files[t].name == t && t in e.openTabs
    ensures Opened(e, t) == e.(openFile := Some(t))
  {
    assert e.files[t := e.files[t].(open := true)] == e.files;
  }

  /** The editor a close leaves: the flag cleared, the tab gone and the last
      tab left active. */
  ghost function AfterClose(e: Editor, name: string): Editor
    requires name in e.files
  {
    var tabs := Without(e.openTabs, name);
    Editor(e.files[name := e.files[name].(open := false)], tabs,
           if tabs == [] then None else Some(tabs[|tabs| - 1]))
  }

  lemma ClosedIsAfterClose(e: Editor, name: string)
    requires Valid(e) && name in e.files
    ensures Closed(e, name) == Transition(AfterClose(e, name), false)
  {
    var files := e.files[name := e.files[name].(open := false)];
    OpenTabsWithout(e.openTabs, files, name);
    var tabs := Without(e.openTabs, name);
    if |tabs| > 0 {
      var last := tabs[|tabs| - 1];
      assert last in tabs;
      OpenedOpenTab(Editor(files, tabs, e.openFile), last);
    }
  }

  /** The invariant after a close, for any active file: the dictionary with
      `name` closed (or with `name` dropped) and the tabs without it. */
  lemma ValidAfterClose(e: Editor, name: string, files: map<string, File>, active: Option<string>)
    requires Valid(e) && name in e.files
    requires files == e.files[name := e.files[name].(open := false)] || files == e.files - {name}
    ensures Valid(Editor(files, Without(e.openTabs, name), active))
  {
    var tabs := Without(e.openTabs, name);
    WithoutDistinct(e.openTabs, name);
    forall k | k in files
      ensures files[k].name == k && (files[k].open <==> k in tabs)
    {
      if k != name {
        assert files[k] == e.files[k];
      }
    }
  }

  /** Closing a file of a valid editor does not throw; its tab goes, the
      other tabs stay in their order, the active file is the last tab left
      or none, and the invariant holds again. */
  lemma ClosedShape(e: Editor, name: string)
    requires Valid(e) && name in e.files
    ensures var c := Closed(e, name);
      !c.threw && c.editor.openTabs == Without(e.openTabs, name)
      && c.editor.openFile == (if c.editor.openTabs == [] then None else Some(c.editor.openTabs[|c.editor.openTabs| - 1]))
      && Valid(c.editor)
  {
    ClosedIsAfterClose(e, name);
    var a := AfterClose(e, name);
    ValidAfterClose(e, name, a.files, a.openFile);
  }

  /** Closing a file that is not there changes nothing. */
  lemma ClosedUnknown(e: Editor, name: string)
    requires name !in e.files
    ensures Closed(e, name) == Transition(e, false)
  {
  }

  /** Loading a dictionary whose entries are stored under their names gives
      the names of its open files as tabs, in key order, and activates the
      first of them, or else the first file. */
  lemma LoadedShape(e: Editor, files: map<string, File>, order: seq<string>)
    requires JsText.KeyOrder(order, files) && files != map[]
    requires forall k :: k in files ==> files[k].name == k
    ensures var r := Loaded(e, files, order).editor;
      r.files.Keys == files.Keys
      && r.openTabs == (if OpenNames(order, files) == [] then [order[0]] else OpenNames(order, files))
      && r.openFile == Some(if OpenNames(order, files) == [] then order[0] else OpenNames(order, files)[0])
  {
    var tabs := OpenNames(order, files);
    if |tabs| > 0 {
      OpenNamesIn(order, files);
      assert tabs[0] in tabs;
    } else {
      assert order[0] in files;
    }
  }

  lemma {:induction false} OpenNamesIn(order: seq<string>, files: map<string, File>)
    requires forall k :: k in order ==> k in files
    requires forall k :: k in files ==> files[k].name == k
    ensures forall n :: n in OpenNames(order, files) ==> n in order && files[n].open
  {
    if order != [] {
      assert forall k :: k in order[1..] ==> k in order;
      OpenNamesIn(order[1..], files);
    }
  }

  /** `updateFile` on a known file sets its dirty flag, replaces the content
      only by a non-empty one and leaves every other file as it was, except
      that when the file is not a tab a file stored under `undefined` gets
      the dirty flag as well. */
  lemma UpdatedShape(e: Editor, name: string, content: Option<string>, dirty: bool)
    requires name in e.files
    ensures var r := Updated(e, name, content, dirty).editor;
      r.files.Keys == e.files.Keys
      && r.files[name].dirty == dirty
      && r.files[name].content == (if content.Some? && content.value != "" then content.value else e.files[name].content)
      && r.files[name].open == e.files[name].open
      && (forall k :: k in e.files && k != name && k != ActiveKey(e.openTabs, name) ==> r.files[k] == e.files[k])
      && (name !in e.openTabs && "undefined" in e.files && name != "undefined" ==>
            r.files["undefined"] == e.files["undefined"].(dirty := dirty))
  {
  }

  /** A confirmed removal in a valid editor takes the file out of the
      dictionary and out of the tabs, and keeps the invariant. */
  lemma RemovedShape(e: Editor, name: string)
    requires Valid(e) && name in e.files
    ensures var r := Removed(e, name);
      !r.threw && r.editor.files == e.files - {name} && name !in r.editor.openTabs && Valid(r.editor)
  {
    ClosedIsAfterClose(e, name);
    var a := AfterClose(e, name);
    assert a.files - {name} == e.files - {name};
    ValidAfterClose(e, name, e.files - {name}, a.openFile);
  }
}
