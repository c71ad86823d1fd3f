/** The package index (backend/index/packages.py, lines 48-152) as an object whose
    dictionary and entries are updated in place.

    Its methods are tied to the functions the transition system of module Watch uses, so
    what is proved about whole runs is about these methods. */
module PackageIndexes {
  import opened Basics
  import opened FileLists
  import opened Watch
  import opened PackageNames
  import opened Regex
  import opened TextOrder

  /** How `PackageIndex` treats a filename in its (flat) directory. */
  function AddKey(f: string): Option<string> {
    if HasPackageExtension(f) && ParseName(f).Some? && ParseName(f).value != "" then ParseName(f) else None
  }

  function PackagePolicy(): Policy<string> {
    Policy(AddKey, ParseName, (f: string) => f, true)
  }

  lemma PackagePolicyIsCoherent()
    ensures Coherent(PackagePolicy())
  {
  }

  /** Exactly the parsable names without a final newline are accepted, under their parsed name. */
  lemma AcceptedNames(f: string)
    ensures AddKey(f) == if EndsInNewline(f) then None else ParseName(f)
  {
    if ParseName(f).Some? {
      ParsedNameIsNotEmpty(f);
      ParsableHasExtensionUnlessNewline(f);
      assert EndsInNewline(f) ==> f[|f| - 1..] == "\n";
    }
  }

  /** Every well-formed wheel and sdist is accepted, under its normalised distribution. */
  lemma PackagesAreAccepted(f: string, k: string)
    requires PackageOf(f, k)
    ensures AddKey(f) == Some(k)
  {
    PackageOfParses(f, k);
  }

  /** What `_build_package_file` reads off the filename. */
  predicate Describes(name: string, package: string, version: string, packageType: string, python: string) {
    && ParseName(name) == Some(package) && ExtractVersion(name) == Some(version)
    && if HasSuffix(name, ".whl") then packageType == "bdist_wheel" && python == "py3"
       else packageType == "sdist" && python == "source"
  }

  class PackageFile {
    const filename: string
    const packageName: string
    const version: string
    const packageType: string
    const pythonVersion: string
    var size: nat
    var sha256: Option<string>

    ghost predicate Described() {
      Describes(filename, packageName, version, packageType, pythonVersion)
    }

    constructor (filename: string, packageName: string, size: nat)
      ensures this.filename == filename && this.packageName == packageName && this.size == size && sha256 == None
      ensures ParseName(filename) == Some(packageName) ==> Described()
    {
      this.filename := filename;
      this.packageName := packageName;
      this.version := match ExtractVersion(filename) case Some(v) => v case None => "";
      this.packageType := if HasSuffix(filename, ".whl") then "bdist_wheel" else "sdist";
      this.pythonVersion := if HasSuffix(filename, ".whl") then "py3" else "source";
      this.size := size;
      this.sha256 := None;
    }
  }

  function FileName(): PackageFile -> string {
    (f: PackageFile) => f.filename
  }

  class PackageIndex {
    var packages: Index<PackageFile>

    constructor ()
      ensures packages == map[]
    {
      packages := map[];
    }

    /** The filenames under each package name, in list order. */
    function Filenames(): Index<string>
      reads this
    {
      ProjectIndex(FileName(), packages)
    }

    static ghost predicate Blank(made: set<PackageFile>)
      reads made
    {
      forall f :: f in made ==> f.size == 0 && f.sha256 == None && f.Described()
    }

    /** The first loop of `_full_scan`: setdefault and append for every accepted name. */
    static method Group(listing: seq<string>) returns (pkgs: Index<PackageFile>, ghost made: set<PackageFile>)
      ensures ProjectIndex(FileName(), pkgs) == Grouped(PackagePolicy(), listing)
      ensures forall k, f :: k in pkgs && f in pkgs[k] ==> f in made
      ensures fresh(made) && Blank(made)
    {
      pkgs, made := map[], {};
      for i := 0 to |listing|
        invariant ProjectIndex(FileName(), pkgs) == Grouped(PackagePolicy(), listing[..i])
        invariant forall k, f :: k in pkgs && f in pkgs[k] ==> f in made
        invariant fresh(made) && Blank(made)
      {
        GroupedStep(listing, i);
        pkgs, made := Append(pkgs, listing[i], made);
      }
      assert listing[..|listing|] == listing;
    }

    /** One turn of the loop. */
    static method Append(pkgs0: Index<PackageFile>, name: string, ghost made0: set<PackageFile>)
      returns (pkgs: Index<PackageFile>, ghost made: set<PackageFile>)
      requires forall k, f :: k in pkgs0 && f in pkgs0[k] ==> f in made0
      ensures ProjectIndex(FileName(), pkgs) == AppendName(ProjectIndex(FileName(), pkgs0), name)
      ensures forall k, f :: k in pkgs && f in pkgs[k] ==> f in made
      ensures made0 <= made && fresh(made - made0) && Blank(made - made0)
    {
      pkgs, made := pkgs0, made0;
      var key := AddKey(name);
      if key.Some? {
        var pf := new PackageFile(name, key.value, 0);
        AppendProjects(pkgs, key.value, pf);
        pkgs := pkgs[key.value := FilesAt(pkgs, key.value) + [pf]];
        made := made + {pf};
      }
    }

    static function AppendName(m: Index<string>, name: string): Index<string> {
      match AddKey(name)
      case None => m
      case Some(k) => m[k := FilesAt(m, k) + [name]]
    }

    static lemma GroupedStep(listing: seq<string>, i: nat)
      requires i < |listing|
      ensures Grouped(PackagePolicy(), listing[..i + 1]) == AppendName(Grouped(PackagePolicy(), listing[..i]), listing[i])
    {
      assert listing[..i + 1][..i] == listing[..i];
    }

    /** `_full_scan`: every listed name is looked at, whatever kind of entry it is. */
    method FullScan(listing: seq<string>) returns (ghost made: set<PackageFile>)
      modifies this
      ensures Filenames() == Scan(PackagePolicy(), listing)
      ensures forall f, k :: f in listing && PackageOf(f, k) ==> Holds(Filenames(), k, f)
      ensures forall k, f :: k in packages && f in packages[k] ==> f in made
      ensures fresh(made) && Blank(made)
    {
      var pkgs;
      pkgs, made := Group(listing);
      PackagesAreScanned(listing);
      SortAll(pkgs, listing);
      forall k, f: PackageFile | k in SortedLists(pkgs) && f in SortedLists(pkgs)[k]
        ensures f in made
      {
        SortedListsHold(pkgs, k, f);
      }
      packages := SortedLists(pkgs);
    }

    static lemma PackagesAreScanned(listing: seq<string>)
      ensures forall f, k :: f in listing && PackageOf(f, k) ==> Holds(Scan(PackagePolicy(), listing), k, f)
    {
      forall f, k | f in listing && PackageOf(f, k) ensures Holds(Scan(PackagePolicy(), listing), k, f) {
        PackagesAreAccepted(f, k);
        ScanHolds(PackagePolicy(), listing, f);
      }
    }

    static function SortedLists(pkgs: Index<PackageFile>): Index<PackageFile> {
      map k | k in pkgs :: Sort(true, FileName(), pkgs[k])
    }

    static lemma AppendProjects(pkgs: Index<PackageFile>, key: string, pf: PackageFile)
      ensures ProjectIndex(FileName(), pkgs[key := FilesAt(pkgs, key) + [pf]])
           == ProjectIndex(FileName(), pkgs)[key := FilesAt(ProjectIndex(FileName(), pkgs), key) + [pf.filename]]
    {
      ProjectFilesAt(FileName(), pkgs, key);
      ProjectUpdate(FileName(), pkgs, key, FilesAt(pkgs, key) + [pf]);
      assert Project(FileName(), FilesAt(pkgs, key) + [pf]) == Project(FileName(), FilesAt(pkgs, key)) + [pf.filename];
    }

    static lemma SortOne(files: seq<PackageFile>)
      ensures Project(FileName(), Sort(true, FileName(), files)) == Sort(true, PackagePolicy().name, Project(FileName(), files))
      ensures forall f :: f in Sort(true, FileName(), files) ==> f in files
    {
      ProjectSort(true, FileName(), FileName(), PackagePolicy().name, files);
      forall f | f in Sort(true, FileName(), files) ensures f in files {
        SortKeepsElements(true, FileName(), files, f);
      }
    }

    static lemma SortAll(pkgs: Index<PackageFile>, listing: seq<string>)
      requires ProjectIndex(FileName(), pkgs) == Grouped(PackagePolicy(), listing)
      ensures ProjectIndex(FileName(), SortedLists(pkgs)) == Scan(PackagePolicy(), listing)
    {
      forall k | k in pkgs
        ensures Project(FileName(), SortedLists(pkgs)[k]) == SortLists(PackagePolicy(), ProjectIndex(FileName(), pkgs))[k]
      {
        SortOne(pkgs[k]);
      }
    }

    static lemma SortedListsHold(pkgs: Index<PackageFile>, k: string, f: PackageFile)
      requires k in SortedLists(pkgs) && f in SortedLists(pkgs)[k]
      ensures k in pkgs && f in pkgs[k]
    {
      SortOne(pkgs[k]);
    }

    /** `_add_or_update`: a regular file with an accepted, parsable name replaces its entry. */
    method AddOrUpdate(disk: map<string, nat>, name: string)
      modifies this
      ensures name !in disk || AddKey(name).None? ==> packages == old(packages)
      ensures name in disk && AddKey(name).Some? ==>
                exists pf: PackageFile :: fresh(pf) && pf.filename == name && pf.packageName == AddKey(name).value
                  && pf.size == disk[name] && pf.sha256 == None && pf.Described()
                  && packages == Put(true, FileName(), old(packages), AddKey(name).value, pf)
      ensures name in disk && AddKey(name).Some? ==>
                Filenames() == Put(true, PackagePolicy().name, old(Filenames()), AddKey(name).value, name)
      ensures forall k :: PackageOf(name, k) && name in disk ==>
                Filenames() == Put(true, PackagePolicy().name, old(Filenames()), k, name)
    {
      forall k | PackageOf(name, k) ensures AddKey(name) == Some(k) {
        PackagesAreAccepted(name, k);
      }
      if name !in disk {
        return;
      }
      if AddKey(name).None? {
        return;
      }
      var pf := new PackageFile(name, AddKey(name).value, disk[name]);
      ProjectPut(true, FileName(), FileName(), PackagePolicy().name, packages, pf.packageName, pf);
      Enter(pf);
    }

    /** The locked section. */
    method Enter(pf: PackageFile)
      modifies this
      ensures packages == Put(true, FileName(), old(packages), pf.packageName, pf)
    {
      var files := Without(FileName(), FilesAt(packages, pf.packageName), pf.filename);
      files := files + [pf];
      packages := packages[pf.packageName := Sort(true, FileName(), files)];
    }

    /** `_remove` */
    method Remove(name: string)
      modifies this
      ensures packages == match ParseName(name)
                          case None => old(packages)
                          case Some(k) => Drop(FileName(), old(packages), k, name)
      ensures Filenames() == match ParseName(name)
                             case None => old(Filenames())
                             case Some(k) => Drop(PackagePolicy().name, old(Filenames()), k, name)
    {
      match ParseName(name)
      case None =>
      case Some(k) =>
        ProjectDrop(FileName(), FileName(), PackagePolicy().name, packages, k, name);
        if k in packages {
          var files := Without(FileName(), packages[k], name);
          packages := if files == [] then packages - {k} else packages[k := files];
        }
    }

    /** What one step of the observer does to this index. The size an entry gets was read by the
        step before. */
    method Handle(w: Work<string>, size: nat)
      modifies this
      ensures Filenames() == Handled(PackagePolicy(), w, old(Filenames()))
    {
      if w.Enter? {
        AddOrUpdate(map[w.path := size], w.path);
      } else if w.Remove? {
        Remove(w.path);
      }
    }

    /** The index through a whole run, from the scan on: it always shows what the run's index
        holds, and once nothing is left to handle it shows what a fresh scan would. */
    method Follow<C, D(!new)>(listing: seq<string>, hash: C -> D, states: seq<State<string, C, D>>,
                              steps: seq<Step<string, C, D>>, sizes: seq<nat>)
      requires Run(PackagePolicy(), hash, states, steps) && Started(PackagePolicy(), states[0], listing)
      requires |sizes| == |steps|
      modifies this
      ensures Filenames() == View(states[|steps|].index)
      ensures states[|steps|].queue == [] && states[|steps|].work == [] ==>
                forall now :: Enumerates(now, states[|steps|].files.Keys) ==> Filenames() == Scan(PackagePolicy(), now)
      ensures states[|steps|].queue == [] && states[|steps|].work == [] ==>
                forall f, k :: PackageOf(f, k) && f in states[|steps|].files ==> Holds(Filenames(), k, f)
    {
      PackagePolicyIsCoherent();
      var made := FullScan(listing);
      for i := 0 to |steps|
        invariant Filenames() == View(states[i].index)
      {
        EveryRunKeepsInvariant(PackagePolicy(), hash, listing, states, steps, i);
        assert StepAt(PackagePolicy(), hash, states, steps, i);
        if steps[i].Handle? {
          HandledView(PackagePolicy(), states[i]);
          Handle(states[i].work[0], sizes[i]);
        }
      }
      if states[|steps|].queue == [] && states[|steps|].work == [] {
        forall now | Enumerates(now, states[|steps|].files.Keys) ensures Filenames() == Scan(PackagePolicy(), now) {
          QuietIndexIsFreshScan(PackagePolicy(), hash, listing, states, steps, |steps|, now);
        }
        forall f, k | PackageOf(f, k) && f in states[|steps|].files ensures Holds(Filenames(), k, f) {
          PackageStands(hash, listing, states, steps, |steps|, f, k);
        }
      }
    }

    /** `get_files`: the spelling of the requested name does not matter, only its PEP 503 words. */
    method GetFiles(name: string) returns (r: Option<seq<PackageFile>>)
      ensures r == if Normalize(name) in packages && packages[Normalize(name)] != [] then Some(packages[Normalize(name)]) else None
      ensures forall other :: Words(other) == Words(name) ==> Normalize(other) == Normalize(name)
    {
      forall other | Words(other) == Words(name) ensures Normalize(other) == Normalize(name) {
        NormalizeDecidesSameName(other, name);
      }
      var norm := Normalize(name);
      if norm in packages && packages[norm] != [] {
        return Some(packages[norm]);
      }
      return None;
    }

    /** `get_sha256`: the stored digest, or that of the file as it is now, which is then stored
        on this entry object alone. A file that cannot be read (`digests`) raises and stores
        none; whether its size can be had (`disk`) is another matter, and is noted before. */
    method GetSha256(pf: PackageFile, disk: map<string, nat>, digests: map<string, string>) returns (r: Option<string>)
      modifies pf
      ensures old(pf.sha256).Some? ==> r == old(pf.sha256) && pf.size == old(pf.size)
      ensures old(pf.sha256).None? ==> r == if pf.filename in digests then Some(digests[pf.filename]) else None
      ensures old(pf.sha256).None? ==>
                pf.size == if old(pf.size) == 0 && pf.filename in disk then disk[pf.filename] else old(pf.size)
      ensures pf.sha256 == r
    {
      if pf.sha256.Some? {
        return pf.sha256;
      }
      if pf.size == 0 && pf.filename in disk {
        pf.size := disk[pf.filename];
      }
      if pf.filename !in digests {
        return None;
      }
      pf.sha256 := Some(digests[pf.filename]);
      return pf.sha256;
    }
  }

  /** With nothing left to handle, a regular file with a well-formed wheel's or sdist's name
      stands under its normalised distribution. */
  lemma PackageStands<C, D(!new)>(hash: C -> D, listing: seq<string>, states: seq<State<string, C, D>>,
                                  steps: seq<Step<string, C, D>>, i: nat, f: string, k: string)
    requires Run(PackagePolicy(), hash, states, steps) && i < |states|
    requires Started(PackagePolicy(), states[0], listing)
    requires states[i].queue == [] && states[i].work == []
    requires PackageOf(f, k) && f in states[i].files
    ensures Holds(View(states[i].index), k, f)
  {
    PackagePolicyIsCoherent();
    EveryRunKeepsInvariant(PackagePolicy(), hash, listing, states, steps, i);
    PackagesAreAccepted(f, k);
    assert PathInvariant(PackagePolicy(), hash, states[i], f);
    var e: Entry<string> :| e.path == f && Holds(states[i].index, k, e);
    ViewHolds(states[i].index, k, f);
  }

  /** Every run of the package index: lists are never empty and strictly descending, each file
      stands under its own parsed name, and once nothing is left to handle the index is what
      scanning the directory as it is now would build, with every well-formed wheel and sdist of
      the directory under its normalised distribution. */
  lemma PackageRunsFollowTheDirectory<C, D(!new)>(hash: C -> D, listing: seq<string>,
      states: seq<State<string, C, D>>, steps: seq<Step<string, C, D>>, i: nat, now: seq<string>)
    requires Run(PackagePolicy(), hash, states, steps) && i < |states|
    requires Started(PackagePolicy(), states[0], listing)
    requires Enumerates(now, states[i].files.Keys)
    ensures forall k :: k in states[i].index ==>
              states[i].index[k] != [] && Strict(true, NameOf(PackagePolicy()), states[i].index[k])
    ensures forall k, e :: Holds(states[i].index, k, e) ==> ParseName(e.path) == Some(k) && HasPackageExtension(e.path)
    ensures states[i].queue == [] && states[i].work == [] ==> View(states[i].index) == Scan(PackagePolicy(), now)
    ensures states[i].queue == [] && states[i].work == [] ==>
              forall f, k :: PackageOf(f, k) && f in states[i].files ==> Holds(View(states[i].index), k, f)
  {
    PackagePolicyIsCoherent();
    ListsStaySound(PackagePolicy(), hash, listing, states, steps, i);
    forall k, e | Holds(states[i].index, k, e) ensures ParseName(e.path) == Some(k) && HasPackageExtension(e.path) {
      assert PackagePolicy().addKey(e.path) == Some(k);
    }
    if states[i].queue == [] && states[i].work == [] {
      QuietIndexIsFreshScan(PackagePolicy(), hash, listing, states, steps, i, now);
      forall f, k | PackageOf(f, k) && f in states[i].files ensures Holds(View(states[i].index), k, f) {
        PackageStands(hash, listing, states, steps, i, f, k);
      }
    }
  }
}
