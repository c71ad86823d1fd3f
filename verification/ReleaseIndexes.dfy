/** The two release indexes, nodejs.org mirrors and CPython builds (backend/index/node_build.py,
    lines 115-122, 162-172, 300-375; backend/index/python_build.py, lines 41-47, 107-165).
    They differ in what they accept and in where an entry's release tag comes from. */
module ReleaseIndexes {
  import opened Basics
  import opened TextOrder
  import opened FileLists
  import opened Watch
  import NodeNames
  import NodeVersions
  import PythonNames
  import Regex

  datatype Kind = Node | PythonBuild

  /** A file two levels below the watched root. */
  datatype Path = Path(release: string, file: string)

  /** What each index asks of a release directory's name and of a file's name, and where an
      entry's release tag comes from. */
  datatype Rules = Rules(isRelease: string -> bool, isArchive: string -> bool, tagOf: Path -> string)

  function RulesOf(kind: Kind): Rules {
    match kind
    case Node =>
      Rules(
        (tag: string) => NodeVersions.IsReleaseTag(tag),
        (file: string) => "node-v" <= file && NodeNames.ParseNodeFilename(file).Some?,
        (p: Path) => p.release)
    case PythonBuild =>
      Rules(
        (tag: string) => PythonNames.IsReleaseTag(tag),
        (file: string) => PythonNames.HasBuildExtension(file) && PythonNames.ParseBuildFilename(file).Some?,
        (p: Path) => match PythonNames.ParseBuildFilename(p.file) case None => "" case Some(b) => b.date)
  }

  predicate Accepts(rules: Rules, p: Path) {
    rules.isRelease(p.release) && rules.isArchive(p.file)
  }

  function AddKey(rules: Rules): Path -> Option<string> {
    (p: Path) => if Accepts(rules, p) then Some(p.release) else None
  }

  function FileOf(): Path -> string {
    (p: Path) => p.file
  }

  /** `_remove` does not look at the names at all. */
  function ReleasePolicy(rules: Rules): Policy<Path> {
    Policy(AddKey(rules), (p: Path) => Some(p.release), FileOf(), false)
  }

  lemma ReleasePolicyIsCoherent(rules: Rules)
    ensures Coherent(ReleasePolicy(rules))
  {
  }

  // ------------------------------------------------------------------------- other depths

  /** A file any number of levels below the root. */
  datatype Location = Location(dirs: seq<string>, file: string)

  function FileAt(): Location -> string {
    (l: Location) => l.file
  }

  /** The name of the directory a file is in, which is all the event handler looks at. */
  function Parent(l: Location): string
    requires l.dirs != []
  {
    l.dirs[|l.dirs| - 1]
  }

  /** The index after the handler has seen a new file. */
  function AfterAdding(rules: Rules, m: Index<Location>, l: Location): Index<Location>
    requires l.dirs != []
  {
    if Accepts(rules, Path(Parent(l), l.file)) then Put(false, FileAt(), m, Parent(l), l) else m
  }

  /** Only files in the root's own children, which is where a full scan looks. */
  ghost predicate AsScanned(m: Index<Location>) {
    forall k, l :: Holds(m, k, l) ==> l.dirs == [k]
  }

  /** An index of what a scan would list stays one exactly when the new file is in a child of the
      root or not accepted; otherwise the file takes the place of the one of its name that is. */
  lemma DeeperAddition(rules: Rules, m: Index<Location>, l: Location)
    requires l.dirs != [] && AsScanned(m)
    ensures AsScanned(AfterAdding(rules, m, l)) <==> |l.dirs| == 1 || !Accepts(rules, Path(Parent(l), l.file))
    ensures !AsScanned(AfterAdding(rules, m, l)) ==>
              Holds(AfterAdding(rules, m, l), Parent(l), l) && !Holds(AfterAdding(rules, m, l), Parent(l), Location([Parent(l)], l.file))
  {
    if Accepts(rules, Path(Parent(l), l.file)) {
      var after := AfterAdding(rules, m, l);
      PutHolds(false, FileAt(), m, Parent(l), l, Parent(l), l);
      PutHolds(false, FileAt(), m, Parent(l), l, Parent(l), Location([Parent(l)], l.file));
      forall k, x | Holds(after, k, x) && x != l ensures x.dirs == [k] {
        PutHolds(false, FileAt(), m, Parent(l), l, k, x);
      }
      forall k | Holds(after, k, l) && k != Parent(l) ensures l.dirs == [k] {
        PutHolds(false, FileAt(), m, Parent(l), l, k, l);
      }
      OnlyOneDeeper(after, l);
    }
  }

  lemma OnlyOneDeeper(m: Index<Location>, l: Location)
    requires l.dirs != [] && Holds(m, Parent(l), l) && forall k, x :: Holds(m, k, x) && x != l ==> x.dirs == [k]
    requires forall k :: Holds(m, k, l) ==> k == Parent(l) || l.dirs == [k]
    ensures AsScanned(m) <==> |l.dirs| == 1
  {
  }

  /** Removing a file further down goes by the same two names, so it also removes the entry of a
      file in a child of the root that has them, and nothing else. */
  lemma DeeperRemoval(m: Index<Path>, dirs: seq<string>, file: string)
    requires dirs != [] && WellFormed(false, FileOf(), m)
    requires forall k, p :: Holds(m, k, p) ==> p.release == k
    ensures var release := dirs[|dirs| - 1];
      Drop(FileOf(), m, release, file) == m <==> !Holds(m, release, Path(release, file))
  {
    var release := dirs[|dirs| - 1];
    var dropped := Drop(FileOf(), m, release, file);
    DropHolds(FileOf(), m, release, file, release, Path(release, file));
    if !Holds(m, release, Path(release, file)) {
      DropKeepsWellFormed(false, FileOf(), m, release, file);
      forall k, p ensures Holds(dropped, k, p) <==> Holds(m, k, p) {
        DropHolds(FileOf(), m, release, file, k, p);
      }
      SameHoldingsSameIndex(false, FileOf(), dropped, m);
    }
  }

  /** So a file that is still there is no longer indexed: the index is not what a scan would build. */
  lemma DeeperRemovalLosesAFile(rules: Rules, listing: seq<Path>, files: set<Path>, dirs: seq<string>, file: string)
    requires dirs != [] && Enumerates(listing, files)
    requires var p := Path(dirs[|dirs| - 1], file); p in files && Accepts(rules, p)
    ensures var scan := Scan(ReleasePolicy(rules), listing); Drop(FileOf(), scan, dirs[|dirs| - 1], file) != scan
  {
    var pol := ReleasePolicy(rules);
    ReleasePolicyIsCoherent(rules);
    ScanSpec(pol, listing, files);
    forall k, p | Holds(Scan(pol, listing), k, p) ensures p.release == k {
      assert pol.addKey(p) == Some(k);
    }
    DeeperRemoval(Scan(pol, listing), dirs, file);
  }

  // ----------------------------------------------------------------------------- the index

  class BuildFile {
    const path: Path
    const releaseTag: string
    var size: nat
    var sha256: Option<string>

    /** `_entry` / `_build_entry`: Node takes the directory's tag, CPython the filename's date. */
    constructor (tagOf: Path -> string, path: Path, size: nat)
      ensures this.path == path && this.size == size && sha256 == None
      ensures releaseTag == tagOf(path)
    {
      this.path := path;
      this.releaseTag := tagOf(path);
      this.size := size;
      this.sha256 := None;
    }
  }

  function PathOfFile(): BuildFile -> Path {
    (f: BuildFile) => f.path
  }

  function FileName(): BuildFile -> string {
    (f: BuildFile) => f.path.file
  }

  /** A directory entry as a scan meets it. */
  datatype Child = Child(name: string, isFile: bool, size: nat)

  datatype Directory = Directory(name: string, isDir: bool, children: seq<Child>)

  /** The regular files of a directory, as paths, in listing order. */
  function Regular(release: string, children: seq<Child>): seq<Path> {
    if children == [] then []
    else
      var c := children[|children| - 1];
      Regular(release, children[..|children| - 1]) + if c.isFile then [Path(release, c.name)] else []
  }

  /** Every regular file of every directory below the root, in listing order. */
  function RegularFiles(tree: seq<Directory>): seq<Path> {
    if tree == [] then []
    else
      var d := tree[|tree| - 1];
      RegularFiles(tree[..|tree| - 1]) + if d.isDir then Regular(d.name, d.children) else []
  }

  ghost predicate Consistent(tagOf: Path -> string, m: Index<BuildFile>) {
    forall k :: k in m ==> m[k] != [] && OwnFiles(tagOf, k, m[k])
  }

  ghost predicate OwnFiles(tagOf: Path -> string, k: string, files: seq<BuildFile>) {
    forall f :: f in files ==> f.path.release == k && f.releaseTag == tagOf(f.path)
  }

  lemma ReplaceKeepsOwnFiles(tagOf: Path -> string, k: string, files: seq<BuildFile>, bf: BuildFile)
    requires OwnFiles(tagOf, k, files) && bf.path.release == k && bf.releaseTag == tagOf(bf.path)
    ensures OwnFiles(tagOf, k, Replace(false, FileName(), files, bf)) && Replace(false, FileName(), files, bf) != []
  {
    var r := Replace(false, FileName(), files, bf);
    forall f: BuildFile | f in r ensures f.path.release == k && f.releaseTag == tagOf(f.path) {
      ReplaceElements(false, FileName(), files, bf, f);
    }
    ReplaceElements(false, FileName(), files, bf, bf);
  }

  lemma PutKeepsConsistent(tagOf: Path -> string, m: Index<BuildFile>, bf: BuildFile)
    requires Consistent(tagOf, m) && bf.releaseTag == tagOf(bf.path)
    ensures Consistent(tagOf, Put(false, FileName(), m, bf.path.release, bf))
  {
    ReplaceKeepsOwnFiles(tagOf, bf.path.release, FilesAt(m, bf.path.release), bf);
  }

  // ---------------------------------------------------------------- scanning directory by directory

  function Archives(rules: Rules, release: string, children: seq<Child>): seq<Path> {
    if children == [] then []
    else
      var c := children[|children| - 1];
      Archives(rules, release, children[..|children| - 1])
        + if c.isFile && rules.isArchive(c.name) then [Path(release, c.name)] else []
  }

  lemma {:induction false} GroupedKeys(rules: Rules, listing: seq<Path>, k: string)
    requires k in Grouped(ReleasePolicy(rules), listing)
    ensures exists p :: p in listing && p.release == k
    decreases |listing|
  {
    var n := |listing| - 1;
    assert listing == listing[..n] + [listing[n]];
    if AddKey(rules)(listing[n]) != Some(k) {
      GroupedKeys(rules, listing[..n], k);
    }
  }

  /** The groups after a release directory whose tag is new. */
  function WithArchives(rules: Rules, m: Index<Path>, release: string, archives: seq<Path>): Index<Path> {
    if rules.isRelease(release) && archives != [] then m[release := archives] else m
  }

  lemma WithOneMore(rules: Rules, m: Index<Path>, release: string, archives: seq<Path>, p: Path)
    requires release !in m && p.release == release && Accepts(rules, p)
    ensures var w := WithArchives(rules, m, release, archives);
      w[release := FilesAt(w, release) + [p]] == WithArchives(rules, m, release, archives + [p])
  {
  }

  /** A release's files, met together, end up together under its tag, or nowhere. */
  lemma {:induction false} GroupedDirectory(rules: Rules, before: seq<Path>, release: string, children: seq<Child>)
    requires release !in Grouped(ReleasePolicy(rules), before)
    ensures Grouped(ReleasePolicy(rules), before + Regular(release, children))
         == WithArchives(rules, Grouped(ReleasePolicy(rules), before), release, Archives(rules, release, children))
    decreases |children|
  {
    if children == [] {
      assert before + [] == before;
    } else {
      var n := |children| - 1;
      var p := Path(release, children[n].name);
      GroupedDirectory(rules, before, release, children[..n]);
      assert !(children[n].isFile && rules.isArchive(children[n].name)) ==>
          Archives(rules, release, children) == Archives(rules, release, children[..n]);
      if !children[n].isFile {
        assert Regular(release, children) == Regular(release, children[..n]);
      } else {
        var sofar := before + Regular(release, children[..n]);
        assert before + Regular(release, children) == sofar + [p];
        GroupedSnoc(ReleasePolicy(rules), sofar, p);
        if Accepts(rules, p) {
          WithOneMore(rules, Grouped(ReleasePolicy(rules), before), release, Archives(rules, release, children[..n]), p);
        }
      }
    }
  }

  lemma ScanDirectory(rules: Rules, before: seq<Path>, release: string, children: seq<Child>)
    requires forall p :: p in before ==> p.release != release
    ensures Scan(ReleasePolicy(rules), before + Regular(release, children))
         == WithArchives(rules, Scan(ReleasePolicy(rules), before), release, Sort(false, FileOf(), Archives(rules, release, children)))
  {
    var pol, archives := ReleasePolicy(rules), Archives(rules, release, children);
    var m := Grouped(pol, before);
    if release in m {
      GroupedKeys(rules, before, release);
    }
    GroupedDirectory(rules, before, release, children);
    SortListsUpdate(pol, m, release, archives);
    assert |multiset(Sort(false, FileOf(), archives))| == |multiset(archives)|;
  }

  predicate DistinctNames(tree: seq<Directory>) {
    forall i, j :: 0 <= i < j < |tree| ==> tree[i].name != tree[j].name
  }

  lemma {:induction false} ReleasesComeFromTree(tree: seq<Directory>, p: Path)
    requires p in RegularFiles(tree)
    ensures exists i :: 0 <= i < |tree| && tree[i].name == p.release
    decreases |tree|
  {
    var n := |tree| - 1;
    if p in RegularFiles(tree[..n]) {
      ReleasesComeFromTree(tree[..n], p);
      var i :| 0 <= i < n && tree[..n][i].name == p.release;
      assert tree[i].name == p.release;
    } else {
      RegularRelease(tree[n].name, tree[n].children, p);
    }
  }

  lemma {:induction false} RegularRelease(release: string, children: seq<Child>, p: Path)
    requires p in Regular(release, children)
    ensures p.release == release
    decreases |children|
  {
    var n := |children| - 1;
    if p in Regular(release, children[..n]) {
      RegularRelease(release, children[..n], p);
    }
  }

  lemma RegularFilesNext(tree: seq<Directory>, i: nat)
    requires i < |tree|
    ensures RegularFiles(tree[..i + 1])
         == RegularFiles(tree[..i]) + if tree[i].isDir then Regular(tree[i].name, tree[i].children) else []
  {
    assert tree[..i + 1][..i] == tree[..i];
  }

  lemma NewRelease(tree: seq<Directory>, i: nat)
    requires i < |tree| && DistinctNames(tree)
    ensures forall p :: p in RegularFiles(tree[..i]) ==> p.release != tree[i].name
  {
    forall p | p in RegularFiles(tree[..i]) ensures p.release != tree[i].name {
      ReleasesComeFromTree(tree[..i], p);
    }
  }

  lemma ScanNextDirectory(rules: Rules, tree: seq<Directory>, i: nat)
    requires i < |tree| && DistinctNames(tree)
    ensures var d := tree[i]; var m := Scan(ReleasePolicy(rules), RegularFiles(tree[..i]));
      Scan(ReleasePolicy(rules), RegularFiles(tree[..i + 1]))
        == if d.isDir then WithArchives(rules, m, d.name, Sort(false, FileOf(), Archives(rules, d.name, d.children))) else m
  {
    var d, before := tree[i], RegularFiles(tree[..i]);
    RegularFilesNext(tree, i);
    NewRelease(tree, i);
    if d.isDir {
      ScanDirectory(rules, before, d.name, d.children);
    } else {
      assert before + [] == before;
    }
  }

  lemma EmptyIsConsistent(tagOf: Path -> string)
    ensures Consistent(tagOf, map[])
  {
  }

  class ReleaseIndex {
    const rules: Rules
    var byRelease: Index<BuildFile>

    constructor (kind: Kind)
      ensures rules == RulesOf(kind) && byRelease == map[] && Valid()
    {
      var chosen := RulesOf(kind);
      rules := chosen;
      byRelease := map[];
      new;
      EmptyIsConsistent(chosen.tagOf);
    }

    /** Lists hold files of their own release, Node entries carry its tag, no list is empty. */
    ghost predicate Valid()
      reads this
    {
      Consistent(rules.tagOf, byRelease)
    }

    function Paths(): Index<Path>
      reads this
    {
      ProjectIndex(PathOfFile(), byRelease)
    }

    /** The inner loop of `_full_scan`: the archives of one release directory. */
    static method ScanChildren(rules: Rules, d: Directory) returns (entries: seq<BuildFile>)
      ensures Project(PathOfFile(), entries) == Archives(rules, d.name, d.children)
      ensures OwnFiles(rules.tagOf, d.name, entries)
    {
      entries := [];
      for i := 0 to |d.children|
        invariant Project(PathOfFile(), entries) == Archives(rules, d.name, d.children[..i])
        invariant OwnFiles(rules.tagOf, d.name, entries)
      {
        assert d.children[..i + 1][..i] == d.children[..i];
        var c := d.children[i];
        if c.isFile && rules.isArchive(c.name) {
          var bf := new BuildFile(rules.tagOf, Path(d.name, c.name), c.size);
          assert Project(PathOfFile(), entries + [bf]) == Project(PathOfFile(), entries) + [bf.path];
          entries := entries + [bf];
        }
      }
      assert d.children[..|d.children|] == d.children;
    }

    static lemma SortEntries(rules: Rules, release: string, entries: seq<BuildFile>)
      requires OwnFiles(rules.tagOf, release, entries)
      ensures OwnFiles(rules.tagOf, release, Sort(false, FileName(), entries))
      ensures Project(PathOfFile(), Sort(false, FileName(), entries)) == Sort(false, FileOf(), Project(PathOfFile(), entries))
      ensures |Sort(false, FileName(), entries)| == |entries|
    {
      var r := Sort(false, FileName(), entries);
      ProjectSort(false, FileName(), PathOfFile(), FileOf(), entries);
      assert |multiset(r)| == |multiset(entries)|;
      forall f: BuildFile | f in r ensures f.path.release == release && f.releaseTag == rules.tagOf(f.path) {
        SortKeepsElements(false, FileName(), entries, f);
      }
    }

    /** The outer loop's body. */
    static method ScanDirectoryOf(rules: Rules, d: Directory, found0: Index<BuildFile>) returns (found: Index<BuildFile>)
      requires Consistent(rules.tagOf, found0)
      ensures Consistent(rules.tagOf, found)
      ensures ProjectIndex(PathOfFile(), found) ==
                if d.isDir then WithArchives(rules, ProjectIndex(PathOfFile(), found0), d.name, Sort(false, FileOf(), Archives(rules, d.name, d.children)))
                else ProjectIndex(PathOfFile(), found0)
    {
      found := found0;
      if d.isDir && rules.isRelease(d.name) {
        var entries := ScanChildren(rules, d);
        FoundNext(rules, d.name, found, entries, Archives(rules, d.name, d.children));
        if entries != [] {
          found := found[d.name := Sort(false, FileName(), entries)];
        }
      }
    }

    static lemma FoundNext(rules: Rules, release: string, found: Index<BuildFile>, entries: seq<BuildFile>, archives: seq<Path>)
      requires Consistent(rules.tagOf, found) && OwnFiles(rules.tagOf, release, entries)
      requires Project(PathOfFile(), entries) == archives
      ensures var sorted := Sort(false, FileName(), entries);
        && (entries == [] <==> Sort(false, FileOf(), archives) == [])
        && (entries != [] ==> Consistent(rules.tagOf, found[release := sorted]))
        && ProjectIndex(PathOfFile(), found[release := sorted]) == ProjectIndex(PathOfFile(), found)[release := Sort(false, FileOf(), archives)]
    {
      var sorted := Sort(false, FileName(), entries);
      SortEntries(rules, release, entries);
      FoundWith(rules, release, found, sorted);
    }

    static lemma FoundWith(rules: Rules, release: string, found: Index<BuildFile>, files: seq<BuildFile>)
      requires Consistent(rules.tagOf, found) && OwnFiles(rules.tagOf, release, files)
      ensures files != [] ==> Consistent(rules.tagOf, found[release := files])
      ensures ProjectIndex(PathOfFile(), found[release := files]) == ProjectIndex(PathOfFile(), found)[release := Project(PathOfFile(), files)]
      ensures files == [] <==> Project(PathOfFile(), files) == []
    {
      ProjectUpdate(PathOfFile(), found, release, files);
    }

    /** `_full_scan`: the regular files of every release directory below the root. */
    method FullScan(tree: seq<Directory>)
      requires DistinctNames(tree)
      modifies this
      ensures Valid()
      ensures Paths() == Scan(ReleasePolicy(rules), RegularFiles(tree))
    {
      var found: Index<BuildFile> := map[];
      for i := 0 to |tree|
        invariant Consistent(rules.tagOf, found)
        invariant ProjectIndex(PathOfFile(), found) == Scan(ReleasePolicy(rules), RegularFiles(tree[..i]))
      {
        ScanNextDirectory(rules, tree, i);
        found := ScanDirectoryOf(rules, tree[i], found);
      }
      assert tree[..|tree|] == tree;
      byRelease := found;
    }

    /** `_add_or_update` */
    method AddOrUpdate(disk: map<Path, nat>, p: Path)
      requires Valid()
      modifies this
      ensures Valid()
      ensures p !in disk || !Accepts(rules, p) ==> byRelease == old(byRelease)
      ensures p in disk && Accepts(rules, p) ==>
                exists bf: BuildFile :: fresh(bf) && bf.path == p && bf.size == disk[p] && bf.sha256 == None
                  && byRelease == Put(false, FileName(), old(byRelease), p.release, bf)
      ensures p in disk && Accepts(rules, p) ==> Paths() == Put(false, FileOf(), old(Paths()), p.release, p)
    {
      if p !in disk || !Accepts(rules, p) {
        return;
      }
      var bf := new BuildFile(rules.tagOf, p, disk[p]);
      ProjectPut(false, FileName(), PathOfFile(), FileOf(), byRelease, p.release, bf);
      PutKeepsConsistent(rules.tagOf, byRelease, bf);
      Enter(bf);
    }

    /** The locked section. */
    method Enter(bf: BuildFile)
      modifies this
      ensures byRelease == Put(false, FileName(), old(byRelease), bf.path.release, bf)
    {
      var files := Without(FileName(), FilesAt(byRelease, bf.path.release), bf.path.file);
      files := files + [bf];
      byRelease := byRelease[bf.path.release := Sort(false, FileName(), files)];
    }

    /** `_remove` */
    method Remove(p: Path)
      requires Valid()
      modifies this
      ensures Valid()
      ensures byRelease == Drop(FileName(), old(byRelease), p.release, p.file)
      ensures Paths() == Drop(FileOf(), old(Paths()), p.release, p.file)
    {
      ProjectDrop(FileName(), PathOfFile(), FileOf(), byRelease, p.release, p.file);
      if p.release in byRelease {
        var files := Without(FileName(), byRelease[p.release], p.file);
        byRelease := if files == [] then byRelease - {p.release} else byRelease[p.release := files];
      }
    }

    /** What one step of the observer does to this index. The size an entry gets was read by the
        step before. */
    method Handle(w: Work<Path>, size: nat)
      requires Valid()
      modifies this
      ensures Valid()
      ensures Paths() == Handled(ReleasePolicy(rules), w, old(Paths()))
    {
      if w.Enter? {
        AddOrUpdate(map[w.path := size], w.path);
      } else if w.Remove? {
        Remove(w.path);
      }
    }

    /** The index through a whole run, from the scan on: it always shows what the run's index
        holds, and once nothing is left to handle it shows what a fresh scan would. */
    method Follow<C, D(!new)>(tree: seq<Directory>, hash: C -> D, states: seq<State<Path, C, D>>,
                              steps: seq<Step<Path, C, D>>, sizes: seq<nat>)
      requires DistinctNames(tree) && Run(ReleasePolicy(rules), hash, states, steps)
      requires Started(ReleasePolicy(rules), states[0], RegularFiles(tree)) && |sizes| == |steps|
      modifies this
      ensures Valid()
      ensures Paths() == View(states[|steps|].index)
      ensures states[|steps|].queue == [] && states[|steps|].work == [] ==>
                forall now :: Enumerates(now, states[|steps|].files.Keys) ==> Paths() == Scan(ReleasePolicy(rules), now)
    {
      ReleasePolicyIsCoherent(rules);
      FullScan(tree);
      for i := 0 to |steps|
        invariant Valid() && Paths() == View(states[i].index)
      {
        EveryRunKeepsInvariant(ReleasePolicy(rules), hash, RegularFiles(tree), states, steps, i);
        assert StepAt(ReleasePolicy(rules), hash, states, steps, i);
        if steps[i].Handle? {
          HandledView(ReleasePolicy(rules), states[i]);
          Handle(states[i].work[0], sizes[i]);
        }
      }
      if states[|steps|].queue == [] && states[|steps|].work == [] {
        forall now | Enumerates(now, states[|steps|].files.Keys) ensures Paths() == Scan(ReleasePolicy(rules), now) {
          QuietIndexIsFreshScan(ReleasePolicy(rules), hash, RegularFiles(tree), states, steps, |steps|, now);
        }
      }
    }

    /** `get_files_for_release`: a tag is known exactly when it has files. */
    method GetFilesForRelease(tag: string) returns (r: Option<seq<BuildFile>>)
      requires Valid()
      ensures r == if tag in byRelease then Some(byRelease[tag]) else None
      ensures r.Some? ==> r.value != []
    {
      if tag in byRelease && byRelease[tag] != [] {
        return Some(byRelease[tag]);
      }
      return None;
    }

    /** `get_file` */
    method GetFile(tag: string, filename: string) returns (r: Option<BuildFile>)
      requires Valid()
      ensures r.Some? ==> tag in byRelease && r.value in byRelease[tag] && r.value.path == Path(tag, filename)
      ensures r.None? ==> tag !in byRelease || forall f :: f in byRelease[tag] ==> f.path.file != filename
    {
      if tag in byRelease {
        var files := byRelease[tag];
        for i := 0 to |files|
          invariant forall j :: 0 <= j < i ==> files[j].path.file != filename
        {
          if files[i].path.file == filename {
            return Some(files[i]);
          }
        }
      }
      return None;
    }
  }

  // ------------------------------------------------------------------- a build's release tag

  /** A printed archive name in a directory named by a release tag of its kind. */
  ghost predicate ArchiveOf(kind: Kind, p: Path) {
    match kind
    case Node =>
      && (exists t :: NodeVersions.WellFormedTag(t) && p.release == NodeVersions.TagText(t))
      && (exists q :: NodeNames.WellFormed(NodeNames.EXTENSIONS, q) && p.file == NodeNames.Filename(q))
    case PythonBuild =>
      && |p.release| == 8 && Regex.AllIn(p.release, Regex.Digit)
      && (exists q :: PythonNames.WellFormed(PythonNames.EXTENSIONS, q) && p.file == PythonNames.Filename(q))
  }

  lemma NodeRules(p: Path)
    ensures Accepts(RulesOf(Node), p) <==>
              NodeVersions.IsReleaseTag(p.release) && "node-v" <= p.file && NodeNames.ParseNodeFilename(p.file).Some?
  {
  }

  /** What an index accepts has a release tag's name and parses. */
  ghost predicate ReadsAs(kind: Kind, tag: string, p: Path) {
    match kind
    case Node =>
      RulesOf(Node).tagOf(p) == tag && NodeVersions.IsReleaseTag(tag) && NodeNames.ParseNodeFilename(p.file).Some?
    case PythonBuild =>
      PythonNames.IsReleaseTag(tag) && PythonNames.ParseBuildFilename(p.file).Some?
  }

  lemma AcceptedParses(kind: Kind, p: Path)
    requires Accepts(RulesOf(kind), p)
    ensures ReadsAs(kind, p.release, p)
  {
  }

  lemma NodeArchives(p: Path, t: NodeVersions.Tag, q: NodeNames.Parts)
    requires NodeVersions.WellFormedTag(t) && p.release == NodeVersions.TagText(t)
    requires NodeNames.WellFormed(NodeNames.EXTENSIONS, q) && p.file == NodeNames.Filename(q)
    ensures Accepts(RulesOf(Node), p)
  {
    NodeVersions.TagIsAccepted(t);
    NodeNames.PrintedNamesAreAccepted(q);
    NodeRules(p);
  }

  lemma BuildArchives(p: Path, q: PythonNames.Parts)
    requires |p.release| == 8 && Regex.AllIn(p.release, Regex.Digit)
    requires PythonNames.WellFormed(PythonNames.EXTENSIONS, q) && p.file == PythonNames.Filename(q)
    ensures Accepts(RulesOf(PythonBuild), p)
  {
    assert p.release[..8] == p.release;
    PythonNames.ReleaseTagsAreDates(p.release);
    BuildTagIsItsDate(p.release, q);
    assert p == Path(p.release, PythonNames.Filename(q));
  }

  lemma ArchivesAreAccepted(kind: Kind, p: Path)
    requires ArchiveOf(kind, p)
    ensures Accepts(RulesOf(kind), p)
  {
    match kind
    case Node =>
      var t :| NodeVersions.WellFormedTag(t) && p.release == NodeVersions.TagText(t);
      var q :| NodeNames.WellFormed(NodeNames.EXTENSIONS, q) && p.file == NodeNames.Filename(q);
      NodeArchives(p, t, q);
    case PythonBuild =>
      var q :| PythonNames.WellFormed(PythonNames.EXTENSIONS, q) && p.file == PythonNames.Filename(q);
      BuildArchives(p, q);
  }

  /** In any release directory a CPython archive is accepted, and its entry carries the date of its
      name: the tag it stands under exactly when that is the directory's name. */
  lemma BuildTagIsItsDate(release: string, p: PythonNames.Parts)
    requires PythonNames.IsReleaseTag(release) && PythonNames.WellFormed(PythonNames.EXTENSIONS, p)
    ensures var rules, path := RulesOf(PythonBuild), Path(release, PythonNames.Filename(p));
      Accepts(rules, path) && rules.tagOf(path) == p.date && (rules.tagOf(path) == release <==> p.date == release)
  {
    PythonNames.BuildFilenameRoundTrip(p);
  }

  // ------------------------------------------------------------------------- whole runs

  /** With nothing left to handle, a well-named archive stands under its directory's tag. */
  lemma ArchiveStands<C, D(!new)>(kind: Kind, hash: C -> D, tree: seq<Directory>, states: seq<State<Path, C, D>>,
                                  steps: seq<Step<Path, C, D>>, i: nat, p: Path)
    requires Run(ReleasePolicy(RulesOf(kind)), hash, states, steps) && i < |states|
    requires Started(ReleasePolicy(RulesOf(kind)), states[0], RegularFiles(tree))
    requires states[i].queue == [] && states[i].work == []
    requires ArchiveOf(kind, p) && p in states[i].files
    ensures Holds(View(states[i].index), p.release, p)
  {
    ArchivesAreAccepted(kind, p);
    AcceptedStands(RulesOf(kind), hash, tree, states, steps, i, p);
  }

  lemma AcceptedStands<C, D(!new)>(rules: Rules, hash: C -> D, tree: seq<Directory>, states: seq<State<Path, C, D>>,
                                   steps: seq<Step<Path, C, D>>, i: nat, p: Path)
    requires Run(ReleasePolicy(rules), hash, states, steps) && i < |states|
    requires Started(ReleasePolicy(rules), states[0], RegularFiles(tree))
    requires states[i].queue == [] && states[i].work == []
    requires Accepts(rules, p) && p in states[i].files
    ensures Holds(View(states[i].index), p.release, p)
  {
    var pol := ReleasePolicy(rules);
    ReleasePolicyIsCoherent(rules);
    EveryRunKeepsInvariant(pol, hash, RegularFiles(tree), states, steps, i);
    assert PathInvariant(pol, hash, states[i], p);
    assert pol.addKey(p) == Some(p.release);
    var e: Entry<Path> :| e.path == p && Holds(states[i].index, p.release, e);
    ViewHolds(states[i].index, p.release, p);
  }

  /** Every run of a release index over a tree of release directories: no release is empty, each
      is in filename order, no file stands under a foreign tag, Node entries carry the tag they
      stand under, and once nothing is left to handle the index is what scanning the tree as it
      is now would build, with every well-named archive in it. */
  lemma ReleaseRunsFollowTheTree<C, D(!new)>(rules: Rules, hash: C -> D, tree: seq<Directory>,
      states: seq<State<Path, C, D>>, steps: seq<Step<Path, C, D>>, i: nat, now: seq<Directory>)
    requires Run(ReleasePolicy(rules), hash, states, steps) && i < |states|
    requires Started(ReleasePolicy(rules), states[0], RegularFiles(tree))
    requires Enumerates(RegularFiles(now), states[i].files.Keys)
    ensures forall k :: k in states[i].index ==>
              states[i].index[k] != [] && Strict(false, NameOf(ReleasePolicy(rules)), states[i].index[k])
    ensures forall k, e :: Holds(states[i].index, k, e) ==> e.path.release == k && Accepts(rules, e.path)
    ensures forall kind, k, e :: rules == RulesOf(kind) && Holds(states[i].index, k, e) ==> ReadsAs(kind, k, e.path)
    ensures states[i].queue == [] && states[i].work == [] ==>
              View(states[i].index) == Scan(ReleasePolicy(rules), RegularFiles(now))
    ensures states[i].queue == [] && states[i].work == [] ==>
              forall kind, p :: rules == RulesOf(kind) && ArchiveOf(kind, p) && p in states[i].files ==>
                Holds(View(states[i].index), p.release, p)
  {
    var pol := ReleasePolicy(rules);
    ReleasePolicyIsCoherent(rules);
    ListsStaySound(pol, hash, RegularFiles(tree), states, steps, i);
    forall k, e | Holds(states[i].index, k, e) ensures e.path.release == k && Accepts(rules, e.path) {
      assert pol.addKey(e.path) == Some(k);
    }
    forall kind, k, e | rules == RulesOf(kind) && Holds(states[i].index, k, e)
      ensures ReadsAs(kind, k, e.path)
    {
      AcceptedParses(kind, e.path);
    }
    if states[i].queue == [] && states[i].work == [] {
      QuietIndexIsFreshScan(pol, hash, RegularFiles(tree), states, steps, i, RegularFiles(now));
      forall kind, p | rules == RulesOf(kind) && ArchiveOf(kind, p) && p in states[i].files
        ensures Holds(View(states[i].index), p.release, p)
      {
        ArchiveStands(kind, hash, tree, states, steps, i, p);
      }
    }
  }
}
