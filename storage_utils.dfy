/** The project tree of src/overmind/Storage: directories and files keyed by
    id, each pointing at its parent directory, and the path helpers of
    src/overmind/Storage/utils.ts that walk those parent links. */
module StorageUtils {
  import opened Wrappers
  import opened JsText

  /** A directory node; `parent` is absent at the top level. */
  datatype Directory = Directory(id: string, name: string, parent: Option<string>)

  /** A file node; binary contents are not modelled, content is text. */
  datatype XFile = XFile(id: string, name: string, parent: Option<string>, content: string)

  /** `XStorage`: the project name and the two dictionaries. */
  datatype XStorage = XStorage(project: Option<string>, directories: map<string, Directory>, files: map<string, XFile>)

  /** Why a path helper does not return. `Cyclic` is the stack overflow of
      a parent walk that comes back to an id it has passed; the other two
      are the TypeError of reading `.id` of a `find` that found nothing. */
  datatype PathError = Cyclic | NoSuchDirectory(name: string) | NoSuchFile

  function AllIds(s: XStorage): set<string> {
    s.files.Keys + s.directories.Keys
  }

  /** `getPathFragment`: the names met walking up from `id`, nearest first.
      A file entry is looked up before a directory entry with the same id;
      an id that is neither ends the walk. `visited` holds the ids already
      passed. */
  function Fragment(s: XStorage, id: Option<string>, visited: set<string>): (r: Result<seq<string>, PathError>)
    ensures id.Some? && id.value in s.files && r.Ok? ==> r.value != [] && r.value[0] == s.files[id.value].name
    ensures id.Some? && id.value !in s.files && id.value in s.directories && r.Ok? ==>
      r.value != [] && r.value[0] == s.directories[id.value].name
    ensures (id.None? || (id.value !in s.files && id.value !in s.directories)) ==> r == Ok([])
    ensures r.Ok? && id.Some? && id.value in AllIds(s) ==> id.value !in visited
    decreases AllIds(s) - visited
  {
    if id.None? then Ok([])
    else if id.value in s.files then
      if id.value in visited then Err(Cyclic)
      else
        var file := s.files[id.value];
        var rest :- Fragment(s, file.parent, visited + {id.value});
        Ok([file.name] + rest)
    else if id.value in s.directories then
      if id.value in visited then Err(Cyclic)
      else
        var dir := s.directories[id.value];
        var rest :- Fragment(s, dir.parent, visited + {id.value});
        Ok([dir.name] + rest)
    else Ok([])
  }

  lemma FileStep(s: XStorage, id: string, visited: set<string>)
    requires id in s.files && id !in visited
    ensures Fragment(s, Some(id), visited).Ok? <==> Fragment(s, s.files[id].parent, visited + {id}).Ok?
    ensures Fragment(s, Some(id), visited).Ok? ==>
      Fragment(s, Some(id), visited).value == [s.files[id].name] + Fragment(s, s.files[id].parent, visited + {id}).value
  {
  }

  lemma DirStep(s: XStorage, id: string, visited: set<string>)
    requires id !in s.files && id in s.directories && id !in visited
    ensures Fragment(s, Some(id), visited).Ok? <==> Fragment(s, s.directories[id].parent, visited + {id}).Ok?
    ensures Fragment(s, Some(id), visited).Ok? ==>
      Fragment(s, Some(id), visited).value == [s.directories[id].name] + Fragment(s, s.directories[id].parent, visited + {id}).value
  {
  }

  function Reverse<T>(xs: seq<T>): (r: seq<T>)
    ensures |r| == |xs| && forall i :: 0 <= i < |xs| ==> r[i] == xs[|xs| - 1 - i]
  {
    if xs == [] then [] else Reverse(xs[1..]) + [xs[0]]
  }

  lemma ReverseCons<T>(x: T, xs: seq<T>)
    ensures Reverse([x] + xs) == Reverse(xs) + [x]
  {
    assert ([x] + xs)[1..] == xs;
  }

  /** `getPath`: the fragment reversed, outermost ancestor first, joined by
      `/`. */
  function GetPath(s: XStorage, id: string): (r: Result<string, PathError>)
    ensures id !in s.files && id !in s.directories ==> r == Ok("")
  {
    var up :- Fragment(s, Some(id), {});
    Ok(Join(Reverse(up), "/"))
  }

  /** `files.find(f => f.name === name && f.parent === parent)`; a missing
      name (`shift()` of an empty array) matches nothing. */
  function FindFile(files: seq<XFile>, name: Option<string>, parent: Option<string>): (r: Option<XFile>)
    ensures r.Some? ==> r.value in files && name == Some(r.value.name) && r.value.parent == parent
    ensures r.None? <==> forall f :: f in files ==> !(name == Some(f.name) && f.parent == parent)
  {
    if files == [] then None
    else if name == Some(files[0].name) && files[0].parent == parent then Some(files[0])
    else FindFile(files[1..], name, parent)
  }

  /** `dirs.find(dir => dir.name === name && dir.parent === parent)`. */
  function FindDir(dirs: seq<Directory>, name: Option<string>, parent: Option<string>): (r: Option<Directory>)
    ensures r.Some? ==> r.value in dirs && name == Some(r.value.name) && r.value.parent == parent
    ensures r.None? <==> forall d :: d in dirs ==> !(name == Some(d.name) && d.parent == parent)
  {
    if dirs == [] then None
    else if name == Some(dirs[0].name) && dirs[0].parent == parent then Some(dirs[0])
    else FindDir(dirs[1..], name, parent)
  }

  /** `getIdForPath`: take the first segment; with more to come it must name
      a directory under `parentId` and the walk goes on inside it, and
      otherwise it must name a file under `parentId`. */
  function GetIdForPath(dirs: seq<Directory>, files: seq<XFile>, path: seq<string>, parentId: Option<string>): Result<string, PathError>
    decreases |path|
  {
    var currPath := if path == [] then None else Some(path[0]);
    var rest := if path == [] then [] else path[1..];
    if |rest| > 0 then
      match FindDir(dirs, currPath, parentId)
      case None => Err(NoSuchDirectory(path[0]))
      case Some(dir) => GetIdForPath(dirs, files, rest, Some(dir.id))
    else
      match FindFile(files, currPath, parentId)
      case None => Err(NoSuchFile)
      case Some(file) => Ok(file.id)
  }

  /** A found id is that of a file named by the last segment; a single
      segment finds a file iff one of that name sits under `parentId`; an
      empty path finds nothing. */
  lemma {:induction false} GetIdForPathResult(dirs: seq<Directory>, files: seq<XFile>, path: seq<string>, parentId: Option<string>)
    ensures var r := GetIdForPath(dirs, files, path, parentId);
      r.Ok? ==> path != [] && exists f :: f in files && f.id == r.value && f.name == path[|path| - 1]
    ensures |path| == 1 ==>
      (GetIdForPath(dirs, files, path, parentId).Ok? <==> exists f :: f in files && f.name == path[0] && f.parent == parentId)
    ensures path == [] ==> GetIdForPath(dirs, files, path, parentId) == Err(NoSuchFile)
    decreases |path|
  {
    if |path| > 1 {
      var d := FindDir(dirs, Some(path[0]), parentId);
      if d.Some? {
        GetIdForPathResult(dirs, files, path[1..], Some(d.value.id));
        assert path[1..][|path[1..]| - 1] == path[|path| - 1];
      }
    }
  }

  /** The segments `getIdByPath` walks: the `/`-separated pieces that are
      not empty. */
  function Segments(path: string): seq<string> {
    NonEmpty(Split(path, '/'))
  }

  /** `getIdByPath`, given `Object.values` of the two dictionaries. */
  function GetIdByPath(dirs: seq<Directory>, files: seq<XFile>, path: string): Result<string, PathError> {
    GetIdForPath(dirs, files, Segments(path), None)
  }

  /** `isFilePartOf`: only a direct child of a given parent counts. */
  function IsFilePartOf(s: XStorage, parentId: Option<string>, fileId: string): (r: bool)
    ensures r <==> parentId.Some? && fileId in s.files && s.files[fileId].parent == parentId
  {
    if parentId.None? then false
    else fileId in s.files && s.files[fileId].parent == parentId
  }

  // --------------------------------------------------------------- paths

  /** A slash between two parts of a path just concatenates their segments. */
  lemma SegmentsConcat(a: string, b: string)
    ensures Segments(a + "/" + b) == Segments(a) + Segments(b)
  {
    SplitConcat(a, b, '/');
    NonEmptyAppend(Split(a, '/'), Split(b, '/'));
  }

  /** So empty segments from leading, trailing or doubled slashes vanish. */
  lemma SegmentsOfSlash(a: string, b: string)
    ensures Segments("/" + b) == Segments(b)
    ensures Segments(a + "/") == Segments(a)
    ensures Segments(a + "//" + b) == Segments(a + "/" + b)
  {
    assert Segments("") == [];
    SegmentsConcat("", b);
    assert "" + "/" + b == "/" + b;
    SegmentsConcat(a, "");
    assert a + "/" + "" == a + "/";
    SegmentsConcat(a, "/" + b);
    SegmentsConcat(a, b);
    assert a + "/" + ("/" + b) == a + "//" + b;
  }

  /** So `getIdByPath` does not see them either. */
  lemma GetIdByPathIgnoresEmptySegments(dirs: seq<Directory>, files: seq<XFile>, a: string, b: string)
    ensures GetIdByPath(dirs, files, "/" + b) == GetIdByPath(dirs, files, b)
    ensures GetIdByPath(dirs, files, a + "/") == GetIdByPath(dirs, files, a)
    ensures GetIdByPath(dirs, files, a + "//" + b) == GetIdByPath(dirs, files, a + "/" + b)
  {
    SegmentsOfSlash(a, b);
  }

  /** An id-consistent tree: keys are the entries' ids, file and directory
      ids differ, every parent is a directory, siblings of one kind have
      distinct names, and names are non-empty and free of `/`. */
  ghost predicate WellFormed(s: XStorage) {
    (forall k :: k in s.files ==> s.files[k].id == k)
    && (forall k :: k in s.directories ==> s.directories[k].id == k)
    && (forall k :: k in s.files ==> k !in s.directories)
    && (forall k :: k in s.files && s.files[k].parent.Some? ==> s.files[k].parent.value in s.directories)
    && (forall k :: k in s.directories && s.directories[k].parent.Some? ==> s.directories[k].parent.value in s.directories)
    && (forall a, b :: a in s.files && b in s.files && a != b && s.files[a].parent == s.files[b].parent
          ==> s.files[a].name != s.files[b].name)
    && (forall a, b :: a in s.directories && b in s.directories && a != b && s.directories[a].parent == s.directories[b].parent
          ==> s.directories[a].name != s.directories[b].name)
    && (forall k :: k in s.files ==> s.files[k].name != "" && '/' !in s.files[k].name)
    && (forall k :: k in s.directories ==> s.directories[k].name != "" && '/' !in s.directories[k].name)
  }

  /** `xs` lists exactly the values of the dictionary `m`. */
  ghost predicate ValuesOfDirs(xs: seq<Directory>, m: map<string, Directory>) {
    forall d :: d in xs <==> d.id in m && m[d.id] == d
  }

  ghost predicate ValuesOfFiles(xs: seq<XFile>, m: map<string, XFile>) {
    forall f :: f in xs <==> f.id in m && m[f.id] == f
  }

  lemma FindDirUnique(s: XStorage, dirs: seq<Directory>, d: Directory)
    requires WellFormed(s) && ValuesOfDirs(dirs, s.directories)
    requires d.id in s.directories && s.directories[d.id] == d
    ensures FindDir(dirs, Some(d.name), d.parent) == Some(d)
  {
    assert d in dirs;
    var e := FindDir(dirs, Some(d.name), d.parent);
    assert e.Some?;
    assert e.value.id in s.directories && s.directories[e.value.id] == e.value;
  }

  lemma FindFileUnique(s: XStorage, files: seq<XFile>, f: XFile)
    requires WellFormed(s) && ValuesOfFiles(files, s.files)
    requires f.id in s.files && s.files[f.id] == f
    ensures FindFile(files, Some(f.name), f.parent) == Some(f)
  {
    assert f in files;
    var e := FindFile(files, Some(f.name), f.parent);
    assert e.Some?;
    assert e.value.id in s.files && s.files[e.value.id] == e.value;
  }

  /** Every name of a fragment is one of the tree's names. */
  lemma {:induction false} FragmentNames(s: XStorage, id: Option<string>, visited: set<string>)
    requires WellFormed(s) && Fragment(s, id, visited).Ok?
    ensures forall n :: n in Fragment(s, id, visited).value ==> n != "" && '/' !in n
    decreases AllIds(s) - visited
  {
    if id.Some? && id.value in s.files {
      FragmentNames(s, s.files[id.value].parent, visited + {id.value});
    } else if id.Some? && id.value in s.directories {
      FragmentNames(s, s.directories[id.value].parent, visited + {id.value});
    }
  }

  /** One step down: a unique directory name followed by more segments
      moves the walk into that directory. */
  lemma DescendOne(dirs: seq<Directory>, files: seq<XFile>, d: Directory, tail: seq<string>)
    requires FindDir(dirs, Some(d.name), d.parent) == Some(d) && tail != []
    ensures GetIdForPath(dirs, files, [d.name] + tail, d.parent) == GetIdForPath(dirs, files, tail, Some(d.id))
  {
    assert ([d.name] + tail)[1..] == tail;
  }

  /** What the downward walk needs of the tree: every directory is found by
      its own name under its own parent, is not shadowed by a file, and has
      a directory or nothing as parent. */
  ghost predicate Resolvable(s: XStorage, dirs: seq<Directory>) {
    forall k :: k in s.directories ==>
      s.directories[k].id == k && k !in s.files
      && FindDir(dirs, Some(s.directories[k].name), s.directories[k].parent) == Some(s.directories[k])
      && (s.directories[k].parent.Some? ==> s.directories[k].parent.value in s.directories)
  }

  lemma WellFormedResolvable(s: XStorage, dirs: seq<Directory>)
    requires WellFormed(s) && ValuesOfDirs(dirs, s.directories)
    ensures Resolvable(s, dirs)
  {
    forall k | k in s.directories
      ensures FindDir(dirs, Some(s.directories[k].name), s.directories[k].parent) == Some(s.directories[k])
    {
      FindDirUnique(s, dirs, s.directories[k]);
    }
  }

  /** Walking down along the reversed fragment of directory `x` from the top
      level arrives in `x`. */
  lemma {:induction false} WalkDown(s: XStorage, dirs: seq<Directory>, files: seq<XFile>, x: string,
                                    visited: set<string>, tail: seq<string>)
    requires Resolvable(s, dirs)
    requires x in s.directories && Fragment(s, Some(x), visited).Ok? && tail != []
    ensures GetIdForPath(dirs, files, Reverse(Fragment(s, Some(x), visited).value) + tail, None)
         == GetIdForPath(dirs, files, tail, Some(x))
    decreases AllIds(s) - visited
  {
    var d := s.directories[x];
    assert x !in s.files && d.id == x;
    DirStep(s, x, visited);
    var up2 := Fragment(s, d.parent, visited + {x}).value;
    var rest := [d.name] + tail;
    assert Reverse(Fragment(s, Some(x), visited).value) + tail == Reverse(up2) + rest by {
      ReverseCons(d.name, up2);
    }
    assert GetIdForPath(dirs, files, rest, d.parent) == GetIdForPath(dirs, files, tail, Some(x)) by {
      DescendOne(dirs, files, d, tail);
    }
    if d.parent.None? {
      assert Reverse(up2) + rest == rest;
    } else {
      WalkDown(s, dirs, files, d.parent.value, visited + {x}, rest);
    }
  }

  /** Round trip: in a well-formed tree, looking up the path of a file gives
      that file back, whenever the upward walk ends. */
  lemma PathRoundTrip(s: XStorage, dirs: seq<Directory>, files: seq<XFile>, id: string)
    requires WellFormed(s) && ValuesOfDirs(dirs, s.directories) && ValuesOfFiles(files, s.files)
    requires id in s.files && GetPath(s, id).Ok?
    ensures GetIdByPath(dirs, files, GetPath(s, id).value) == Ok(id)
  {
    var f := s.files[id];
    FileStep(s, id, {});
    var none: set<string> := {};
    assert none + {id} == {id};
    var up := Fragment(s, Some(id), {}).value;
    var up2 := Fragment(s, f.parent, {id}).value;
    assert up == [f.name] + up2;
    var names := Reverse(up);
    ReverseCons(f.name, up2);
    FragmentNames(s, Some(id), {});
    assert forall i :: 0 <= i < |names| ==> names[i] in up;
    SplitJoin(names, '/');
    NonEmptyOfNonEmpty(names);
    assert Segments(GetPath(s, id).value) == names;
    FindFileUnique(s, files, f);
    if f.parent.None? {
      assert names == [f.name];
    } else {
      WellFormedResolvable(s, dirs);
      WalkDown(s, dirs, files, f.parent.value, {id}, [f.name]);
    }
  }

  /** A walk that does not meet the ids in `big` does not meet those in a
      smaller set either. */
  lemma {:induction false} FragmentFewerVisited(s: XStorage, id: Option<string>, small: set<string>, big: set<string>)
    requires small <= big && Fragment(s, id, big).Ok?
    ensures Fragment(s, id, small) == Fragment(s, id, big)
    decreases AllIds(s) - big
  {
    if id.Some? && id.value in s.files {
      FragmentFewerVisited(s, s.files[id.value].parent, small + {id.value}, big + {id.value});
    } else if id.Some? && id.value in s.directories {
      FragmentFewerVisited(s, s.directories[id.value].parent, small + {id.value}, big + {id.value});
    }
  }

  lemma JoinSnoc(xs: seq<string>, y: string, sep: string)
    requires xs != []
    ensures Join(xs + [y], sep) == Join(xs, sep) + sep + y
    decreases |xs|
  {
    if |xs| > 1 {
      JoinSnoc(xs[1..], y, sep);
      assert (xs + [y])[1..] == xs[1..] + [y];
    } else {
      assert xs + [y] == [xs[0], y];
    }
  }

  /** A file that `isFilePartOf` places in directory `d` has the path of `d`
      followed by `/` and its own name. */
  lemma ChildPath(s: XStorage, d: string, id: string)
    requires WellFormed(s) && d in s.directories && IsFilePartOf(s, Some(d), id) && GetPath(s, id).Ok?
    ensures GetPath(s, d).Ok? && GetPath(s, id).value == GetPath(s, d).value + "/" + s.files[id].name
  {
    var f := s.files[id];
    FileStep(s, id, {});
    var none: set<string> := {};
    assert none + {id} == {id};
    var up2 := Fragment(s, Some(d), {id}).value;
    assert Fragment(s, Some(id), {}).value == [f.name] + up2;
    FragmentFewerVisited(s, Some(d), {}, {id});
    assert d !in s.files;
    assert up2 != [];
    ReverseCons(f.name, up2);
    JoinSnoc(Reverse(up2), f.name, "/");
  }
}
