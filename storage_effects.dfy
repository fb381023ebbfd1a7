/** The storage keys of src/overmind/Storage/effects.ts: every project is
    kept under its own key, `<project>.storage`, and the unnamed project
    under `storage`. The storage calls themselves are not modelled; only
    how keys are built and how the key list is read back. */
module StorageKeys {
  import opened Wrappers
  import opened JsText

  const StorageKey: string := "storage"
  const Suffix: string := ".storage"

  /** A project name as JavaScript sees it: absent (null or undefined), or
      a string, of which only the empty one is falsy. */
  predicate Truthy(project: Option<string>) {
    project.Some? && project.value != ""
  }

  /** `getProjectStorageKey`. */
  function ProjectStorageKey(project: Option<string>): (key: string)
    ensures Truthy(project) ==> key == project.value + Suffix
    ensures !Truthy(project) ==> key == StorageKey
  {
    if Truthy(project) then project.value + "." + StorageKey else StorageKey
  }

  /** The name `getProjectList` reads off one key: the text before its first
      `.`. */
  function ListedName(key: string): (name: string)
    requires '.' in key
    ensures name <= key && '.' !in name && key[|name|] == '.'
  {
    key[..IndexOf(key, '.')]
  }

  /** `getProjectList` on the stored keys, in their order. */
  function ProjectList(keys: seq<string>): (names: seq<string>)
    ensures |names| <= |keys|
  {
    if keys == [] then []
    else
      var rest := ProjectList(keys[1..]);
      if EndsWith(keys[0], Suffix) then
        assert keys[0][|keys[0]| - |Suffix|] == '.';
        [ListedName(keys[0])] + rest
      else rest
  }

  /** The key `removeProject` deletes: a falsy name goes through as `''`,
      so it is the default key. */
  function RemoveProjectKey(project: Option<string>): (key: string)
    ensures !Truthy(project) ==> key == StorageKey
    ensures Truthy(project) ==> key == ProjectStorageKey(project)
  {
    ProjectStorageKey(Some(if Truthy(project) then project.value else ""))
  }

  // ------------------------------------------------------------ properties

  /** The default key never yields a project, wherever it sits. */
  lemma DefaultKeyNotListed(before: seq<string>, after: seq<string>)
    ensures ProjectList(before + [StorageKey] + after) == ProjectList(before + after)
    decreases |before|
  {
    if before == [] {
      assert before + [StorageKey] + after == [StorageKey] + after && before + after == after;
      assert ([StorageKey] + after)[1..] == after;
      assert !EndsWith(StorageKey, Suffix);
    } else {
      DefaultKeyNotListed(before[1..], after);
      assert (before + [StorageKey] + after)[1..] == before[1..] + [StorageKey] + after;
      assert (before + after)[1..] == before[1..] + after;
    }
  }

  /** Every listed name is the text before the first dot of a key with the
      project suffix, and the list is empty iff no key has that suffix. */
  lemma {:induction false} ProjectListNames(keys: seq<string>)
    ensures forall n :: n in ProjectList(keys) ==>
      exists k :: k in keys && EndsWith(k, Suffix) && '.' in k && n == ListedName(k)
    ensures ProjectList(keys) == [] <==> forall k :: k in keys ==> !EndsWith(k, Suffix)
  {
    if keys != [] {
      ProjectListNames(keys[1..]);
      if EndsWith(keys[0], Suffix) {
        assert keys[0][|keys[0]| - |Suffix|] == '.';
      }
      assert forall k :: k in keys[1..] ==> k in keys;
      assert forall k :: k in keys ==> k == keys[0] || k in keys[1..];
      forall n | n in ProjectList(keys)
        ensures exists k :: k in keys && EndsWith(k, Suffix) && '.' in k && n == ListedName(k)
      {
        if EndsWith(keys[0], Suffix) && n == ListedName(keys[0]) {
          assert keys[0] in keys;
        } else {
          var k :| k in keys[1..] && EndsWith(k, Suffix) && '.' in k && n == ListedName(k);
          assert k in keys;
        }
      }
    }
  }

  /** A project name without dots. */
  predicate Plain(p: string) {
    p != "" && '.' !in p
  }

  /** The keys the named projects are stored under, in order. */
  function ProjectKeys(projects: seq<string>): (keys: seq<string>)
    ensures |keys| == |projects|
  {
    if projects == [] then [] else [ProjectStorageKey(Some(projects[0]))] + ProjectKeys(projects[1..])
  }

  /** Round trip: the keys of named projects without dots list back as those
      names, in order. */
  lemma {:induction false} ProjectListRoundTrip(projects: seq<string>)
    requires forall i :: 0 <= i < |projects| ==> Plain(projects[i])
    ensures ProjectList(ProjectKeys(projects)) == projects
  {
    if projects != [] {
      var p, rest := projects[0], projects[1..];
      var k, ks := ProjectStorageKey(Some(p)), ProjectKeys(rest);
      assert ProjectKeys(projects) == [k] + ks;
      assert ProjectList(ks) == rest by {
        ProjectListRoundTrip(rest);
      }
      assert ProjectList([k] + ks) == [p] + ProjectList(ks) by {
        KeyReadsBack(p);
        ProjectListCons(k, ks);
      }
      assert projects == [p] + rest;
    }
  }

  lemma ProjectListCons(key: string, keys: seq<string>)
    requires EndsWith(key, Suffix)
    ensures '.' in key && ProjectList([key] + keys) == [ListedName(key)] + ProjectList(keys)
  {
    assert ([key] + keys)[1..] == keys;
    assert key[|key| - |Suffix|] == '.';
  }

  lemma KeyReadsBack(p: string)
    requires Plain(p)
    ensures EndsWith(ProjectStorageKey(Some(p)), Suffix) && ListedName(ProjectStorageKey(Some(p))) == p
  {
    var key := ProjectStorageKey(Some(p));
    assert key == p + Suffix;
    assert key[|key| - |Suffix|..] == Suffix;
    assert key[|p|] == '.' && '.' !in key[..|p|];
    IndexOfAt(key, '.', |p|);
  }

  lemma IndexOfAt(s: string, c: char, i: nat)
    requires i < |s| && s[i] == c && c !in s[..i]
    ensures IndexOf(s, c) == i
  {
    var j := IndexOf(s, c);
    forall k | 0 <= k < i
      ensures s[k] != c
    {
      assert s[..i][k] == s[k];
    }
    forall k | 0 <= k < j
      ensures s[k] != c
    {
      assert s[..j][k] == s[k];
    }
  }

  // --------------------------------------------------- a dotted project name

  /** As written, a project whose name holds a dot is listed under the text
      before that dot, which is not a name its key can be found by. */
  lemma DottedNameListedAsPrefix()
    ensures ProjectList([ProjectStorageKey(Some("my.app"))]) == ["my"]
    ensures ProjectStorageKey(Some("my")) != ProjectStorageKey(Some("my.app"))
  {
    var key := ProjectStorageKey(Some("my.app"));
    assert key == "my.app.storage";
    assert EndsWith(key, Suffix);
    IndexOfAt(key, '.', 2);
    assert ListedName(key) == "my";
    assert ProjectList([key][1..]) == [];
  }

  /** The listing the key scheme calls for: strip the `.storage` suffix. */
  function ProjectListBySuffix(keys: seq<string>): (names: seq<string>)
    ensures |names| <= |keys|
  {
    if keys == [] then []
    else
      var rest := ProjectListBySuffix(keys[1..]);
      if EndsWith(keys[0], Suffix) && |keys[0]| > |Suffix| then [keys[0][..|keys[0]| - |Suffix|]] + rest
      else rest
  }

  /** With the suffix stripped, every named project lists back as itself,
      dots and all. */
  lemma {:induction false} ProjectListBySuffixRoundTrip(projects: seq<string>)
    requires forall i :: 0 <= i < |projects| ==> projects[i] != ""
    ensures ProjectListBySuffix(ProjectKeys(projects)) == projects
  {
    if projects != [] {
      var keys := ProjectKeys(projects);
      assert keys[1..] == ProjectKeys(projects[1..]);
      assert ProjectListBySuffix(keys[1..]) == projects[1..] by {
        ProjectListBySuffixRoundTrip(projects[1..]);
      }
      var key := keys[0];
      assert key == projects[0] + Suffix;
      assert key[|key| - |Suffix|..] == Suffix;
      assert key[..|key| - |Suffix|] == projects[0];
      assert projects == [projects[0]] + projects[1..];
    }
  }

  /** The default key is not listed by the corrected reading either. */
  lemma DefaultKeyNotListedBySuffix()
    ensures ProjectListBySuffix([StorageKey]) == []
  {
    assert !EndsWith(StorageKey, Suffix);
  }
}
