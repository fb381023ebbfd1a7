/** The project-tree actions of src/overmind/Storage/actions.ts that change
    the dictionaries `state.Storage.directories` and `state.Storage.files`.
    The answers of `window.prompt` and `window.confirm` and the fresh id of
    `generateNodeId` are parameters; the calls into the editor's
    `closeFile` and `openFile` are returned as the ids they were given, and
    saving the storage afterwards is not modelled. */
module StorageActions {
  import opened Wrappers
  import opened JsText
  import opened StorageUtils
  import StorageKeys

  /** Whether `removeDir` of `target` deletes a node with this id and
      parent: the directory itself and its direct children. */
  predicate Hit(id: string, parent: Option<string>, target: string) {
    id == target || parent == Some(target)
  }

  /** The ids a `forEach` over `nodes` deletes for `removeDir` of `target`,
      in visiting order. */
  function Doomed<T>(nodes: seq<T>, id: T -> string, parent: T -> Option<string>, target: string): seq<string> {
    if nodes == [] then []
    else
      var last := nodes[|nodes| - 1];
      Doomed(nodes[..|nodes| - 1], id, parent, target) + (if Hit(id(last), parent(last), target) then [id(last)] else [])
  }

  function Elements(ids: seq<string>): set<string> {
    set x | x in ids
  }

  function DirId(d: Directory): string { d.id }
  function DirParent(d: Directory): Option<string> { d.parent }
  function FileId(f: XFile): string { f.id }
  function FileParent(f: XFile): Option<string> { f.parent }

  class StorageState {
    var directories: map<string, Directory>
    var files: map<string, XFile>

    /** The empty tree of src/overmind/Storage/state.ts. */
    constructor ()
      ensures directories == map[] && files == map[]
    {
      directories := map[];
      files := map[];
    }

    /** `createNewFile(folderId)`: a truthy name adds one empty file under the
        folder and opens it in the editor; no name adds nothing. */
    method CreateNewFile(folderId: Option<string>, name: Option<string>, id: string) returns (toOpen: Option<string>)
      modifies this
      ensures StorageKeys.Truthy(name) ==> files == old(files)[id := XFile(id, name.value, folderId, "")] && toOpen == Some(id)
      ensures !StorageKeys.Truthy(name) ==> files == old(files) && toOpen == None
      ensures directories == old(directories)
    {
      toOpen := None;
      if StorageKeys.Truthy(name) {
        files := files[id := XFile(id, name.value, folderId, "")];
        toOpen := Some(id);
      }
    }

    /** `createNewFolder(folderId)`: a truthy name adds one directory under
        the folder. */
    method CreateNewFolder(folderId: Option<string>, name: Option<string>, id: string)
      modifies this
      ensures StorageKeys.Truthy(name) ==> directories == old(directories)[id := Directory(id, name.value, folderId)]
      ensures !StorageKeys.Truthy(name) ==> directories == old(directories)
      ensures files == old(files)
    {
      if StorageKeys.Truthy(name) {
        directories := directories[id := Directory(id, name.value, folderId)];
      }
    }

    /** `updateFile({id, content})`: only a file that exists gets the new
        content. */
    method UpdateFile(id: string, content: string)
      modifies this
      ensures id in old(files) ==> files == old(files)[id := old(files)[id].(content := content)]
      ensures id !in old(files) ==> files == old(files)
      ensures directories == old(directories)
    {
      if id in files {
        files := files[id := files[id].(content := content)];
      }
    }

    /** `forceRemoveFile(fileId)`: close the file in the editor and delete
        the entry under its id; an unknown id does nothing. */
    method ForceRemoveFile(fileId: string) returns (closed: Option<string>)
      modifies this
      ensures fileId !in old(files) ==> files == old(files) && closed == None
      ensures fileId in old(files) ==> var id := old(files)[fileId].id;
        closed == Some(id) && files == old(files) - {id}
      ensures directories == old(directories)
    {
      if fileId !in files {
        return None;
      }
      var file := files[fileId];
      closed := Some(file.id);
      files := files - {file.id};
    }

    /** `removeFile(fileId)` once the user has answered the confirmation. */
    method RemoveFile(fileId: string, confirmed: bool) returns (closed: Option<string>)
      modifies this
      ensures !confirmed || fileId !in old(files) ==> files == old(files) && closed == None
      ensures confirmed && fileId in old(files) ==> var id := old(files)[fileId].id;
        closed == Some(id) && files == old(files) - {id}
      ensures directories == old(directories)
    {
      closed := None;
      if confirmed {
        closed := ForceRemoveFile(fileId);
      }
    }

    /** `removeDir(dirId)` once the user has answered the confirmation: visit
        the directories, deleting the one removed and its children, then
        the files, closing and deleting those whose id or parent is the
        removed directory. `dirOrder` and `fileOrder` are the orders in
        which `Object.values` visits the two dictionaries. */
    method RemoveDir(dirId: string, confirmed: bool, dirOrder: seq<string>, fileOrder: seq<string>)
      returns (closed: seq<string>)
      requires KeyOrder(dirOrder, directories) && KeyOrder(fileOrder, files)
      modifies this
      ensures dirId !in old(directories) || !confirmed ==>
        directories == old(directories) && files == old(files) && closed == []
      ensures dirId in old(directories) && confirmed ==>
        var target := old(directories)[dirId].id;
        var doomedDirs := Doomed(Values(old(directories), dirOrder), DirId, DirParent, target);
        var doomedFiles := Doomed(Values(old(files), fileOrder), FileId, FileParent, target);
        directories == old(directories) - Elements(doomedDirs)
        && files == old(files) - Elements(doomedFiles)
        && closed == doomedFiles
    {
      closed := [];
      if dirId !in directories || !confirmed {
        return;
      }
      var target := directories[dirId].id;
      PruneDirectories(target, Values(directories, dirOrder));
      closed := PruneFiles(target, Values(files, fileOrder));
    }

    /** The `forEach` of `removeDir` over the directories. */
    method PruneDirectories(target: string, dirs: seq<Directory>)
      modifies this
      ensures directories == old(directories) - Elements(Doomed(dirs, DirId, DirParent, target))
      ensures files == old(files)
    {
      NothingPruned(directories);
      var i := 0;
      while i < |dirs|
        invariant 0 <= i <= |dirs|
        invariant directories == old(directories) - Elements(Doomed(dirs[..i], DirId, DirParent, target))
        invariant files == old(files)
      {
        PrunedStep(old(directories), dirs, DirId, DirParent, target, i);
        var d := dirs[i];
        assert DirId(d) == d.id && DirParent(d) == d.parent;
        if Hit(d.id, d.parent, target) {
          directories := directories - {d.id};
        }
        i := i + 1;
      }
      assert dirs[..i] == dirs;
    }

    /** The `forEach` of `removeDir` over the files: each hit file is closed
        in the editor, then deleted. */
    method PruneFiles(target: string, nodes: seq<XFile>) returns (closed: seq<string>)
      modifies this
      ensures closed == Doomed(nodes, FileId, FileParent, target)
      ensures files == old(files) - Elements(closed)
      ensures directories == old(directories)
    {
      NothingPruned(files);
      closed := [];
      var j := 0;
      assert nodes[..0] == [];
      while j < |nodes|
        invariant 0 <= j <= |nodes|
        invariant directories == old(directories)
        invariant closed == Doomed(nodes[..j], FileId, FileParent, target)
        invariant files == old(files) - Elements(closed)
      {
        DoomedStep(nodes, FileId, FileParent, target, j);
        PrunedStep(old(files), nodes, FileId, FileParent, target, j);
        var f := nodes[j];
        assert FileId(f) == f.id && FileParent(f) == f.parent;
        if Hit(f.id, f.parent, target) {
          closed := closed + [f.id];
          files := files - {f.id};
        }
        j := j + 1;
      }
      assert nodes[..j] == nodes;
    }
  }

  // --------------------------------------------------------- loop steps

  lemma DoomedStep<T>(nodes: seq<T>, id: T -> string, parent: T -> Option<string>, target: string, i: nat)
    requires i < |nodes|
    ensures Doomed(nodes[..i + 1], id, parent, target)
         == Doomed(nodes[..i], id, parent, target)
            + (if Hit(id(nodes[i]), parent(nodes[i]), target) then [id(nodes[i])] else [])
  {
    assert nodes[..i + 1][..i] == nodes[..i];
  }

  lemma ElementsSnoc(ids: seq<string>, x: string)
    ensures Elements(ids + [x]) == Elements(ids) + {x}
  {
  }

  lemma NothingPruned<V>(m: map<string, V>)
    ensures m - Elements([]) == m
  {
    assert Elements([]) == {};
  }

  /** One more visited node deletes its id from what is left, if it is hit. */
  lemma PrunedStep<T, V>(m: map<string, V>, nodes: seq<T>, id: T -> string, parent: T -> Option<string>, target: string, i: nat)
    requires i < |nodes|
    ensures m - Elements(Doomed(nodes[..i + 1], id, parent, target))
         == if Hit(id(nodes[i]), parent(nodes[i]), target)
            then (m - Elements(Doomed(nodes[..i], id, parent, target))) - {id(nodes[i])}
            else m - Elements(Doomed(nodes[..i], id, parent, target))
  {
    DoomedStep(nodes, id, parent, target, i);
    var before := Doomed(nodes[..i], id, parent, target);
    if Hit(id(nodes[i]), parent(nodes[i]), target) {
      ElementsSnoc(before, id(nodes[i]));
    }
  }

  // --------------------------------------------------------- properties

  /** An id is deleted exactly when some visited node with that id is hit. */
  lemma {:induction false} DoomedMembers<T>(nodes: seq<T>, id: T -> string, parent: T -> Option<string>, target: string)
    ensures forall x :: x in Doomed(nodes, id, parent, target) <==>
      exists n :: n in nodes && Hit(id(n), parent(n), target) && x == id(n)
  {
    if nodes != [] {
      var init := nodes[..|nodes| - 1];
      DoomedMembers(init, id, parent, target);
      assert nodes == init + [nodes[|nodes| - 1]];
    }
  }

  /** Over a dictionary whose entries are stored under their own ids, the
      ids deleted are exactly the keys of the removed directory and of the
      entries whose parent it is. */
  lemma DoomedOfMap<T>(m: map<string, T>, order: seq<string>, id: T -> string, parent: T -> Option<string>, target: string)
    requires KeyOrder(order, m) && forall k :: k in m ==> id(m[k]) == k
    ensures forall k :: k in Elements(Doomed(Values(m, order), id, parent, target)) <==>
      k in m && Hit(k, parent(m[k]), target)
  {
    var vals := Values(m, order);
    DoomedMembers(vals, id, parent, target);
    forall k | k in m && Hit(k, parent(m[k]), target)
      ensures k in Doomed(vals, id, parent, target)
    {
      var i :| 0 <= i < |order| && order[i] == k;
      assert vals[i] in vals && vals[i] == m[k];
    }
    forall x | x in Doomed(vals, id, parent, target)
      ensures x in m && Hit(x, parent(m[x]), target)
    {
      var n :| n in vals && Hit(id(n), parent(n), target) && x == id(n);
      var i :| 0 <= i < |vals| && vals[i] == n;
      assert n == m[order[i]];
    }
  }

  /** What a confirmed `removeDir` leaves of a dictionary whose entries are
      stored under their ids: every entry that is neither the removed
      directory nor a direct child of it, unchanged. Grandchildren stay. */
  lemma Pruned<T>(m: map<string, T>, order: seq<string>, id: T -> string, parent: T -> Option<string>, target: string)
    requires KeyOrder(order, m) && forall k :: k in m ==> id(m[k]) == k
    ensures var r := m - Elements(Doomed(Values(m, order), id, parent, target));
      (forall k :: k in r <==> k in m && !Hit(k, parent(m[k]), target))
      && forall k :: k in r ==> r[k] == m[k]
  {
    DoomedOfMap(m, order, id, parent, target);
  }

  /** The storage of src/overmind/Storage/state.ts keeps each node under its
      own id. */
  predicate StoredById(s: XStorage) {
    (forall k :: k in s.directories ==> s.directories[k].id == k)
    && forall k :: k in s.files ==> s.files[k].id == k
  }

  /** A confirmed `removeDir` of an existing directory in such a storage
      deletes that directory and its child directories, and the files in
      it, and nothing else; every remaining entry is unchanged, and the
      files the editor closes are exactly the deleted ones. */
  lemma RemoveDirEffect(s: XStorage, dirId: string, dirOrder: seq<string>, fileOrder: seq<string>)
    requires StoredById(s) && dirId in s.directories
    requires KeyOrder(dirOrder, s.directories) && KeyOrder(fileOrder, s.files)
    ensures var doomedDirs := Doomed(Values(s.directories, dirOrder), DirId, DirParent, dirId);
      var doomedFiles := Doomed(Values(s.files, fileOrder), FileId, FileParent, dirId);
      var dirs := s.directories - Elements(doomedDirs);
      var files := s.files - Elements(doomedFiles);
      (forall k :: k in dirs <==> k in s.directories && k != dirId && s.directories[k].parent != Some(dirId))
      && (forall k :: k in dirs ==> dirs[k] == s.directories[k])
      && (forall k :: k in files <==> k in s.files && k != dirId && s.files[k].parent != Some(dirId))
      && (forall k :: k in files ==> files[k] == s.files[k])
      && (forall k :: k in doomedFiles <==> k in s.files && k !in files)
  {
    Pruned(s.directories, dirOrder, DirId, DirParent, dirId);
    Pruned(s.files, fileOrder, FileId, FileParent, dirId);
    DoomedOfMap(s.files, fileOrder, FileId, FileParent, dirId);
  }
}
