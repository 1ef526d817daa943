/** How a release archive, or a project directory, becomes an immutable table of decision graphs. */
module ImmutableLoader {
  import opened Wrappers

  datatype Graph = Graph(versionId: Option<string>, content: string)

  /** What the JSON reader made of a file. */
  datatype FileContent = GraphFile(graph: Graph) | Unknown

  /** What the JSON reader makes of an opened member; None when it fails. */
  datatype Reading = Reading(parsed: Option<FileContent>)

  /**
   * A stored member as the archive's directory lists it, and what opening it plainly or with the
   * password gives. `enclosed` holds the components of the path when it stays inside the archive.
   */
  datatype Entry = Entry(name: string, isFile: bool, enclosed: Option<seq<string>>,
                         plain: Option<Reading>, decrypted: Option<Reading>)

  /** An opened member. */
  datatype ZipFile = ZipFile(name: string, isFile: bool, enclosed: Option<seq<string>>, parsed: Option<FileContent>)

  datatype Archive = Archive(entries: seq<Entry>, password: bool, releaseData: Option<string>)

  datatype Loader = Loader(releaseData: Option<string>, content: map<string, Graph>)

  /** What one archive member contributes to the table. */
  datatype Item = Skip | Fail | Keep(name: string, graph: Graph)

  /** The password is tried first; a member that does not open with it is opened plainly. */
  function Open(a: Archive, i: nat): Option<ZipFile>
    requires i < |a.entries|
  {
    var e := a.entries[i];
    var reading := if a.password && e.decrypted.Some? then e.decrypted else e.plain;
    if reading.None? then None else Some(ZipFile(e.name, e.isFile, e.enclosed, reading.value.parsed))
  }

  function Classify(f: Option<ZipFile>, lower: string -> string): Item {
    if f.None? then Fail
    else if !f.value.isFile then Skip
    else if f.value.enclosed.None? then Skip
    else if f.value.enclosed.value != [] && f.value.enclosed.value[0] == ".config" then Skip
    else match f.value.parsed
      case None => Fail
      case Some(Unknown) => Skip
      case Some(GraphFile(graph)) => Keep(lower(f.value.name), graph)
  }

  /** Collects the first n members in order; the first failure fails the whole collection. */
  function Collect(a: Archive, lower: string -> string, n: nat): Option<map<string, Graph>>
    requires n <= |a.entries|
  {
    if n == 0 then Some(map[])
    else
      var before := Collect(a, lower, n - 1);
      if before.None? then None
      else match Classify(Open(a, n - 1), lower)
        case Skip => before
        case Fail => None
        case Keep(name, graph) => Some(before.value[name := graph])
  }

  function Build(a: Archive, lower: string -> string): Option<Loader> {
    var content := Collect(a, lower, |a.entries|);
    if content.None? then None else Some(Loader(a.releaseData, content.value))
  }

  function Load(l: Loader, key: string, lower: string -> string): Result<Graph, string> {
    if lower(key) in l.content then Ok(l.content[lower(key)]) else Err(lower(key))
  }

  /** A regular file with a path inside the archive, outside the `.config` directory. */
  predicate IsRuleFile(e: Entry) {
    e.isFile && match e.enclosed case None => false case Some(parts) => !([".config"] <= parts)
  }

  /** The archive has a password, and the member opens with it. */
  predicate Decrypts(a: Archive, i: nat)
    requires i < |a.entries|
  {
    a.password && a.entries[i].decrypted != None
  }

  /** Opening member i gives this: with the password where that works, and else plainly. */
  predicate Reads(a: Archive, i: nat, r: Reading)
    requires i < |a.entries|
  {
    Some(r) == if Decrypts(a, i) then a.entries[i].decrypted else a.entries[i].plain
  }

  /** The member cannot be opened, or is a rule file that the JSON reader rejects. */
  predicate Unreadable(a: Archive, i: nat)
    requires i < |a.entries|
  {
    || (!Decrypts(a, i) && a.entries[i].plain == None)
    || (IsRuleFile(a.entries[i]) && Reads(a, i, Reading(None)))
  }

  /** Member i is a rule file that holds this graph. */
  predicate HoldsGraph(a: Archive, i: nat, graph: Graph)
    requires i < |a.entries|
  {
    IsRuleFile(a.entries[i]) && Reads(a, i, Reading(Some(GraphFile(graph))))
  }

  /** Member i holds a graph, under a name that folds to the given one. */
  ghost predicate Keeps(a: Archive, lower: string -> string, i: nat, name: string)
    requires i < |a.entries|
  {
    (exists graph :: HoldsGraph(a, i, graph)) && lower(a.entries[i].name) == name
  }

  lemma ClassifyMeans(a: Archive, lower: string -> string, i: nat)
    requires i < |a.entries|
    ensures var item := Classify(Open(a, i), lower);
            && (item.Fail? <==> Unreadable(a, i))
            && (item.Keep? <==> exists graph :: HoldsGraph(a, i, graph))
            && (item.Keep? ==> Keeps(a, lower, i, item.name) && HoldsGraph(a, i, item.graph))
  {
    var e, f := a.entries[i], Open(a, i);
    if f.Some? && e.enclosed.Some? {
      var parts := e.enclosed.value;
      assert [".config"] <= parts <==> parts != [] && parts[0] == ".config";
      if f.value.parsed.Some? && f.value.parsed.value.GraphFile? && IsRuleFile(e) {
        assert HoldsGraph(a, i, f.value.parsed.value.graph);
      }
    }
  }

  /** Member i is the last of the first n that holds a graph under that name. */
  ghost predicate LastUnder(a: Archive, lower: string -> string, n: nat, name: string, i: nat)
    requires n <= |a.entries|
  {
    && i < n
    && Keeps(a, lower, i, name)
    && forall j :: i < j < n ==> !Keeps(a, lower, j, name)
  }

  lemma {:induction false} CollectFails(a: Archive, lower: string -> string, n: nat)
    requires n <= |a.entries|
    ensures Collect(a, lower, n).None? <==> exists i :: 0 <= i < n && Unreadable(a, i)
  {
    if n > 0 {
      CollectFails(a, lower, n - 1);
      ClassifyMeans(a, lower, n - 1);
    }
  }

  lemma {:induction false} CollectKeepsLast(a: Archive, lower: string -> string, n: nat, name: string)
    requires n <= |a.entries| && Collect(a, lower, n).Some?
    ensures name in Collect(a, lower, n).value <==> exists i :: 0 <= i < n && Keeps(a, lower, i, name)
    ensures forall i: nat :: LastUnder(a, lower, n, name, i) ==>
      name in Collect(a, lower, n).value && HoldsGraph(a, i, Collect(a, lower, n).value[name])
  {
    if n > 0 {
      CollectKeepsLast(a, lower, n - 1, name);
      ClassifyMeans(a, lower, n - 1);
      forall i: nat | LastUnder(a, lower, n, name, i)
        ensures name in Collect(a, lower, n).value
        ensures HoldsGraph(a, i, Collect(a, lower, n).value[name])
      {
        if i < n - 1 {
          assert !Keeps(a, lower, n - 1, name);
          assert LastUnder(a, lower, n - 1, name, i);
        }
      }
    }
  }

  /** Of the members under a name there is a last one. */
  lemma {:induction false} LastExists(a: Archive, lower: string -> string, n: nat, name: string, i: nat)
    requires i < n <= |a.entries| && Keeps(a, lower, i, name)
    ensures exists k: nat :: LastUnder(a, lower, n, name, k)
    decreases n - i
  {
    if j :| i < j < n && Keeps(a, lower, j, name) {
      LastExists(a, lower, n, name, j);
    } else {
      assert LastUnder(a, lower, n, name, i);
    }
  }

  /**
   * Building an archive fails exactly when some member cannot be opened, or is a rule file that the
   * JSON reader rejects; where it stands does not matter.
   */
  lemma BuildFailsExactly(a: Archive, lower: string -> string)
    ensures Build(a, lower).None? <==> exists i :: 0 <= i < |a.entries| && Unreadable(a, i)
  {
    CollectFails(a, lower, |a.entries|);
  }

  /**
   * A member of the `.config` directory fails the build if and only if it cannot be opened: what it
   * holds does not matter, but that it can be read at all does.
   */
  lemma ConfigMemberFailsExactly(a: Archive, lower: string -> string, i: nat)
    requires i < |a.entries| && a.entries[i].isFile
    requires a.entries[i].enclosed.Some? && [".config"] <= a.entries[i].enclosed.value
    requires forall j :: 0 <= j < |a.entries| && j != i ==> !Unreadable(a, j)
    ensures Build(a, lower).None? <==> Open(a, i).None?
  {
    BuildFailsExactly(a, lower);
    assert Unreadable(a, i) <==> Open(a, i).None?;
  }

  /** An archive that does not load only because its release data cannot be opened. */
  lemma LockedConfigFails(lower: string -> string)
    ensures var config := Entry(".config/project.json", true, Some([".config", "project.json"]), None, None);
            Build(Archive([config], false, None), lower).None?
  {
    var config := Entry(".config/project.json", true, Some([".config", "project.json"]), None, None);
    var a := Archive([config], false, None);
    assert Open(a, 0).None?;
    ConfigMemberFailsExactly(a, lower, 0);
  }

  /**
   * Trying a password never makes a member unopenable: it fails only where both ways of opening fail.
   * Without one no member is decrypted, and opening changes neither a member's name nor its path.
   */
  lemma PasswordOnlyHelps(a: Archive, i: nat)
    requires i < |a.entries|
    ensures Open(a, i).Some? ==>
      var f, e := Open(a, i).value, a.entries[i];
      (f.name, f.isFile, f.enclosed) == (e.name, e.isFile, e.enclosed) && Reads(a, i, Reading(f.parsed))
    ensures !a.password ==> (Open(a, i).None? <==> a.entries[i].plain.None?)
    ensures Open(a.(password := false), i).Some? ==> Open(a.(password := true), i).Some?
    ensures Open(a.(password := true), i).None? <==> a.entries[i].plain.None? && a.entries[i].decrypted.None?
  {
  }

  /** Looking up this key finds the last graph of the archive whose folded name is the folded key, and nothing else. */
  ghost predicate FindsLast(l: Loader, a: Archive, lower: string -> string, key: string) {
    match Load(l, key, lower)
    case Ok(graph) => exists i: nat :: LastUnder(a, lower, |a.entries|, lower(key), i) && HoldsGraph(a, i, graph)
    case Err(name) => name == lower(key) && forall i :: 0 <= i < |a.entries| ==> !Keeps(a, lower, i, name)
  }

  lemma LoadFindsLast(a: Archive, lower: string -> string, key: string)
    requires Build(a, lower).Some?
    ensures FindsLast(Build(a, lower).value, a, lower, key)
    ensures Build(a, lower).value.releaseData == a.releaseData
  {
    var n, name := |a.entries|, lower(key);
    CollectKeepsLast(a, lower, n, name);
    if name in Collect(a, lower, n).value {
      var i :| 0 <= i < n && Keeps(a, lower, i, name);
      LastExists(a, lower, n, name, i);
      var k: nat :| LastUnder(a, lower, n, name, k);
      assert HoldsGraph(a, k, Load(Build(a, lower).value, key, lower).value);
    }
  }

  /** A regular file of a project directory, with its path relative to the root. */
  datatype DiskFile = DiskFile(path: string, inConfig: bool, parsed: Option<FileContent>)

  /** Directory loading stores the relative path as it is spelled on disk. */
  function CollectDisk(files: seq<DiskFile>, n: nat): Option<map<string, Graph>>
    requires n <= |files|
  {
    if n == 0 then Some(map[])
    else
      var before := CollectDisk(files, n - 1);
      var f := files[n - 1];
      if before.None? || f.inConfig then before
      else match f.parsed
        case None => None
        case Some(Unknown) => before
        case Some(GraphFile(graph)) => Some(before.value[f.path := graph])
  }

  function BuildDisk(files: seq<DiskFile>): Option<Loader> {
    var content := CollectDisk(files, |files|);
    if content.None? then None else Some(Loader(None, content.value))
  }

  /** File i of the directory holds a graph the loader keeps. */
  predicate DiskGraph(files: seq<DiskFile>, i: nat)
    requires i < |files|
  {
    !files[i].inConfig && files[i].parsed.Some? && files[i].parsed.value.GraphFile?
  }

  /** File i is the last of the first n that holds a graph under this path. */
  predicate LastOnDisk(files: seq<DiskFile>, n: nat, path: string, i: nat)
    requires n <= |files|
  {
    && i < n && DiskGraph(files, i) && files[i].path == path
    && forall j :: i < j < n && DiskGraph(files, j) ==> files[j].path != path
  }

  lemma {:induction false} DiskKeysAreSpelledPaths(files: seq<DiskFile>, n: nat, path: string)
    requires n <= |files| && CollectDisk(files, n).Some?
    ensures path in CollectDisk(files, n).value <==>
      exists i :: 0 <= i < n && DiskGraph(files, i) && files[i].path == path
    ensures forall i: nat :: LastOnDisk(files, n, path, i) ==>
      path in CollectDisk(files, n).value
      && files[i].parsed == Some(GraphFile(CollectDisk(files, n).value[path]))
  {
    if n > 0 {
      DiskKeysAreSpelledPaths(files, n - 1, path);
      if DiskGraph(files, n - 1) && files[n - 1].path == path {
        assert path in CollectDisk(files, n).value;
      }
      forall i: nat | LastOnDisk(files, n, path, i)
        ensures path in CollectDisk(files, n).value
        ensures files[i].parsed == Some(GraphFile(CollectDisk(files, n).value[path]))
      {
        if i < n - 1 {
          assert LastOnDisk(files, n - 1, path, i);
        }
      }
    }
  }

  /** A directory fails to load exactly when some file outside `.config` is rejected by the JSON reader. */
  lemma {:induction false} DiskFailsExactly(files: seq<DiskFile>, n: nat)
    requires n <= |files|
    ensures CollectDisk(files, n).None? <==> exists i :: 0 <= i < n && !files[i].inConfig && files[i].parsed.None?
  {
    if n > 0 {
      DiskFailsExactly(files, n - 1);
    }
  }

  /** The lookup that a caller's key triggers hits the table row of this path. */
  predicate Reaches(l: Loader, key: string, lower: string -> string, path: string) {
    lower(key) == path && path in l.content && Load(l, key, lower) == Ok(l.content[path])
  }

  /**
   * Directory-built loaders keep the spelling of the disk while lookups fold the key:
   * a kept file can be reached at all exactly when its path is already folded.
   */
  lemma DiskFileReachable(files: seq<DiskFile>, lower: string -> string, i: nat)
    requires forall s :: lower(lower(s)) == lower(s)
    requires BuildDisk(files).Some? && i < |files| && DiskGraph(files, i)
    ensures (exists key :: Reaches(BuildDisk(files).value, key, lower, files[i].path))
      <==> lower(files[i].path) == files[i].path
  {
    var l, path := BuildDisk(files).value, files[i].path;
    DiskKeysAreSpelledPaths(files, |files|, path);
    if lower(path) == path {
      assert Reaches(l, path, lower, path);
    }
  }

  /** An archive-built loader reaches every kept member under every spelling of its name. */
  lemma ArchiveMemberReachable(a: Archive, lower: string -> string, i: nat, key: string)
    requires Build(a, lower).Some? && i < |a.entries| && Keeps(a, lower, i, lower(key))
    ensures Load(Build(a, lower).value, key, lower).Ok?
  {
    CollectKeepsLast(a, lower, |a.entries|, lower(key));
  }
}
