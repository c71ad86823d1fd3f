/** The shape all three watched indexes share: a dictionary from a key (package name or
    release tag) to a list of entries kept in filename order.

    `Put` is the tail of `_add_or_update` (setdefault, filter, append, sort), `Drop` the
    tail of `_remove` (filter, delete the key when its list runs empty). */
module FileLists {
  import opened TextOrder

  type Index<E> = map<string, seq<E>>

  function Without<E>(key: E -> string, files: seq<E>, name: string): (r: seq<E>)
    ensures forall x :: x in r ==> x in files && key(x) != name
    ensures forall x :: x in files && key(x) != name ==> x in r
    ensures |r| <= |files|
  {
    if files == [] then []
    else (if key(files[0]) != name then [files[0]] else []) + Without(key, files[1..], name)
  }

  /** The list with `e` in place of any entry of the same name. */
  function Replace<E>(down: bool, key: E -> string, files: seq<E>, e: E): seq<E> {
    Sort(down, key, Without(key, files, key(e)) + [e])
  }

  function FilesAt<E>(m: Index<E>, k: string): seq<E> {
    if k in m then m[k] else []
  }

  function Put<E>(down: bool, key: E -> string, m: Index<E>, k: string, e: E): Index<E> {
    m[k := Replace(down, key, FilesAt(m, k), e)]
  }

  function Drop<E>(key: E -> string, m: Index<E>, k: string, name: string): Index<E> {
    if k !in m then m
    else
      var files := Without(key, m[k], name);
      if files == [] then m - {k} else m[k := files]
  }

  /** No empty lists, and every list strictly in filename order. */
  predicate WellFormed<E>(down: bool, key: E -> string, m: Index<E>) {
    forall k :: k in m ==> m[k] != [] && Strict(down, key, m[k])
  }

  predicate Holds<E(==)>(m: Index<E>, k: string, e: E) {
    k in m && e in m[k]
  }

  lemma {:induction false} WithoutKeepsStrict<E>(down: bool, key: E -> string, files: seq<E>, name: string)
    requires Strict(down, key, files)
    ensures Strict(down, key, Without(key, files, name))
    decreases |files|
  {
    if files != [] {
      var rest := Without(key, files[1..], name);
      WithoutKeepsStrict(down, key, files[1..], name);
      forall j | 0 <= j < |rest| ensures Before(down, key(files[0]), key(rest[j])) {
        assert rest[j] in files[1..];
      }
    }
  }

  lemma ReplaceElements<E>(down: bool, key: E -> string, files: seq<E>, e: E, x: E)
    ensures x in Replace(down, key, files, e) <==> x == e || (x in files && key(x) != key(e))
  {
    SortKeepsElements(down, key, Without(key, files, key(e)) + [e], x);
  }

  lemma PutKeepsWellFormed<E>(down: bool, key: E -> string, m: Index<E>, k: string, e: E)
    requires WellFormed(down, key, m)
    ensures WellFormed(down, key, Put(down, key, m, k, e))
  {
    ReplacedListIsStrict(down, key, FilesAt(m, k), e);
  }

  lemma ReplacedListIsStrict<E>(down: bool, key: E -> string, files: seq<E>, e: E)
    requires Strict(down, key, files)
    ensures Strict(down, key, Replace(down, key, files, e))
    ensures Replace(down, key, files, e) != []
  {
    var kept := Without(key, files, key(e));
    WithoutKeepsStrict(down, key, files, key(e));
    StrictIsDistinct(down, key, kept);
    forall i, j | 0 <= i < j < |kept + [e]| ensures key((kept + [e])[i]) != key((kept + [e])[j]) {
      assert kept[i] in kept;
    }
    SortIsStrict(down, key, kept + [e]);
    SortKeepsElements(down, key, kept + [e], e);
  }

  lemma PutHolds<E>(down: bool, key: E -> string, m: Index<E>, k: string, e: E, k': string, x: E)
    ensures Holds(Put(down, key, m, k, e), k', x)
       <==> if k' == k then x == e || (Holds(m, k, x) && key(x) != key(e)) else Holds(m, k', x)
  {
    ReplaceElements(down, key, FilesAt(m, k), e, x);
  }

  lemma DropKeepsWellFormed<E>(down: bool, key: E -> string, m: Index<E>, k: string, name: string)
    requires WellFormed(down, key, m)
    ensures WellFormed(down, key, Drop(key, m, k, name))
  {
    if k in m {
      WithoutKeepsStrict(down, key, m[k], name);
    }
  }

  lemma DropHolds<E>(key: E -> string, m: Index<E>, k: string, name: string, k': string, x: E)
    ensures Holds(Drop(key, m, k, name), k', x) <==> Holds(m, k', x) && !(k' == k && key(x) == name)
  {
    if k in m {
      var files := Without(key, m[k], name);
      assert x in files <==> x in m[k] && key(x) != name;
    }
  }

  /** Well-formed indexes that hold the same entries are the same dictionary. */
  lemma SameHoldingsSameIndex<E>(down: bool, key: E -> string, a: Index<E>, b: Index<E>)
    requires WellFormed(down, key, a) && WellFormed(down, key, b)
    requires forall k, x :: Holds(a, k, x) <==> Holds(b, k, x)
    ensures a == b
  {
    forall k | k in a || k in b ensures k in a && k in b && a[k] == b[k] {
      assert k in a ==> Holds(a, k, a[k][0]);
      assert k in b ==> Holds(b, k, b[k][0]);
      forall x ensures x in a[k] <==> x in b[k] {
        assert Holds(a, k, x) <==> Holds(b, k, x);
      }
      StrictUnique(down, key, a[k], b[k]);
    }
  }

  // --------------------------------------------------- an index seen through its filenames

  function Project<E, P>(f: E -> P, s: seq<E>): (r: seq<P>)
    ensures |r| == |s| && forall i :: 0 <= i < |s| ==> r[i] == f(s[i])
  {
    seq(|s|, i requires 0 <= i < |s| => f(s[i]))
  }

  lemma ProjectCons<E, P>(f: E -> P, e: E, s: seq<E>)
    ensures Project(f, [e] + s) == [f(e)] + Project(f, s)
  {
  }

  function ProjectIndex<E, P>(f: E -> P, m: Index<E>): Index<P> {
    map k | k in m :: Project(f, m[k])
  }

  lemma {:induction false} ProjectInsert<E, P>(down: bool, key: E -> string, f: E -> P, name: P -> string, s: seq<E>, e: E)
    requires key(e) == name(f(e)) && forall x :: x in s ==> key(x) == name(f(x))
    ensures Project(f, Insert(down, key, s, e)) == Insert(down, name, Project(f, s), f(e))
    decreases |s|
  {
    if s != [] {
      assert s[0] in s && forall x :: x in s[1..] ==> x in s;
      assert Project(f, s)[1..] == Project(f, s[1..]);
      if Before(down, key(e), key(s[0])) {
        ProjectCons(f, e, s);
      } else {
        ProjectInsert(down, key, f, name, s[1..], e);
        ProjectCons(f, s[0], Insert(down, key, s[1..], e));
      }
    }
  }

  ghost predicate KeyIsName<E, P>(key: E -> string, f: E -> P, name: P -> string, s: seq<E>) {
    forall i :: 0 <= i < |s| ==> key(s[i]) == name(f(s[i]))
  }

  lemma SortedKeyIsName<E, P>(down: bool, key: E -> string, f: E -> P, name: P -> string, s: seq<E>)
    requires KeyIsName(key, f, name, s)
    ensures forall x :: x in Sort(down, key, s) ==> key(x) == name(f(x))
  {
    forall x | x in Sort(down, key, s) ensures key(x) == name(f(x)) {
      SortKeepsElements(down, key, s, x);
    }
  }

  lemma {:induction false} ProjectSort<E, P>(down: bool, key: E -> string, f: E -> P, name: P -> string, s: seq<E>)
    requires KeyIsName(key, f, name, s)
    ensures Project(f, Sort(down, key, s)) == Sort(down, name, Project(f, s))
    decreases |s|
  {
    if s != [] {
      var front, last := s[..|s| - 1], s[|s| - 1];
      ProjectSort(down, key, f, name, front);
      SortedKeyIsName(down, key, f, name, front);
      ProjectInsert(down, key, f, name, Sort(down, key, front), last);
      assert Project(f, s)[..|s| - 1] == Project(f, front);
    }
  }

  lemma {:induction false} ProjectWithout<E, P>(key: E -> string, f: E -> P, name: P -> string, s: seq<E>, n: string)
    requires forall x :: x in s ==> key(x) == name(f(x))
    ensures Project(f, Without(key, s, n)) == Without(name, Project(f, s), n)
    decreases |s|
  {
    if s != [] {
      assert s[0] in s && forall x :: x in s[1..] ==> x in s;
      ProjectWithout(key, f, name, s[1..], n);
      assert Project(f, s)[1..] == Project(f, s[1..]);
      ProjectCons(f, s[0], Without(key, s[1..], n));
      assert [] + Without(key, s[1..], n) == Without(key, s[1..], n);
      assert [] + Without(name, Project(f, s[1..]), n) == Without(name, Project(f, s[1..]), n);
    }
  }

  lemma ProjectKept<E, P>(key: E -> string, f: E -> P, name: P -> string, files: seq<E>, e: E)
    requires key(e) == name(f(e)) && forall x :: x in files ==> key(x) == name(f(x))
    ensures KeyIsName(key, f, name, Without(key, files, key(e)) + [e])
    ensures Project(f, Without(key, files, key(e)) + [e]) == Without(name, Project(f, files), name(f(e))) + [f(e)]
  {
    var kept := Without(key, files, key(e));
    ProjectWithout(key, f, name, files, key(e));
    forall i | 0 <= i < |kept + [e]| ensures key((kept + [e])[i]) == name(f((kept + [e])[i])) {
      if i < |kept| {
        assert kept[i] in kept;
      }
    }
    assert Project(f, kept + [e]) == Project(f, kept) + [f(e)];
  }

  lemma ProjectReplace<E, P>(down: bool, key: E -> string, f: E -> P, name: P -> string, files: seq<E>, e: E)
    requires key(e) == name(f(e)) && forall x :: x in files ==> key(x) == name(f(x))
    ensures Project(f, Replace(down, key, files, e)) == Replace(down, name, Project(f, files), f(e))
  {
    ProjectKept(key, f, name, files, e);
    ProjectSort(down, key, f, name, Without(key, files, key(e)) + [e]);
  }

  ghost predicate IndexKeyIsName<E, P>(key: E -> string, f: E -> P, name: P -> string, m: Index<E>) {
    forall k, x :: k in m && x in m[k] ==> key(x) == name(f(x))
  }

  lemma ProjectUpdate<E, P>(f: E -> P, m: Index<E>, k: string, files: seq<E>)
    ensures ProjectIndex(f, m[k := files]) == ProjectIndex(f, m)[k := Project(f, files)]
  {
  }

  lemma ProjectFilesAt<E, P>(f: E -> P, m: Index<E>, k: string)
    ensures Project(f, FilesAt(m, k)) == FilesAt(ProjectIndex(f, m), k)
  {
  }

  /** Putting an entry, seen through filenames, is putting its filename. */
  lemma ProjectPut<E, P>(down: bool, key: E -> string, f: E -> P, name: P -> string, m: Index<E>, k: string, e: E)
    requires key(e) == name(f(e)) && IndexKeyIsName(key, f, name, m)
    ensures ProjectIndex(f, Put(down, key, m, k, e)) == Put(down, name, ProjectIndex(f, m), k, f(e))
  {
    ProjectReplace(down, key, f, name, FilesAt(m, k), e);
    ProjectFilesAt(f, m, k);
    ProjectUpdate(f, m, k, Replace(down, key, FilesAt(m, k), e));
  }

  lemma ProjectDrop<E, P>(key: E -> string, f: E -> P, name: P -> string, m: Index<E>, k: string, n: string)
    requires IndexKeyIsName(key, f, name, m)
    ensures ProjectIndex(f, Drop(key, m, k, n)) == Drop(name, ProjectIndex(f, m), k, n)
  {
    if k in m {
      ProjectWithout(key, f, name, m[k], n);
    }
  }
}
