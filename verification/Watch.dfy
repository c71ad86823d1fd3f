/** Watched indexes as a transition system (backend/index/base.py and the index classes).

    A run interleaves, in any order: changes of files, which queue an event each; the
    observer thread, which takes an event and works through its handler in separate
    steps that look at the file system as it is *then*; and readers, which hash a file
    and store the digest on the entry object at some later time.

    A policy says how one index class treats a path. */
module Watch {
  import opened Basics
  import opened TextOrder
  import opened FileLists

  /** `addKey`: the dictionary key a regular file is indexed under, if any.
      `removeKey`: the key `_remove` looks under. `name`: the filename lists are ordered by.
      `down`: whether lists are sorted with `reverse=True`. */
  datatype Policy<!P> = Policy(addKey: P -> Option<string>, removeKey: P -> Option<string>, name: P -> string, down: bool)

  /** `_remove` looks where `_add_or_update` put the file, and a key and a filename fix the path. */
  ghost predicate Coherent<P(!new)>(pol: Policy<P>) {
    && (forall p :: pol.addKey(p).Some? ==> pol.removeKey(p) == pol.addKey(p))
    && (forall p, q :: pol.addKey(p).Some? && pol.addKey(p) == pol.removeKey(q) && pol.name(p) == pol.name(q) ==> p == q)
  }

  // ------------------------------------------------------------------------ the full scan

  /** setdefault and append for every accepted path, in the order the directory lists them. */
  function Grouped<P>(pol: Policy<P>, listing: seq<P>): Index<P> {
    if listing == [] then map[]
    else
      var m := Grouped(pol, listing[..|listing| - 1]);
      var p := listing[|listing| - 1];
      match pol.addKey(p)
      case None => m
      case Some(k) => m[k := (if k in m then m[k] else []) + [p]]
  }

  function SortLists<P>(pol: Policy<P>, m: Index<P>): Index<P> {
    map k | k in m :: Sort(pol.down, pol.name, m[k])
  }

  /** `_full_scan`: group, then sort every list. */
  function Scan<P>(pol: Policy<P>, listing: seq<P>): Index<P> {
    SortLists(pol, Grouped(pol, listing))
  }

  lemma SortListsUpdate<P>(pol: Policy<P>, m: Index<P>, k: string, files: seq<P>)
    ensures SortLists(pol, m[k := files]) == SortLists(pol, m)[k := Sort(pol.down, pol.name, files)]
  {
  }

  lemma GroupedSnoc<P>(pol: Policy<P>, listing: seq<P>, p: P)
    ensures Grouped(pol, listing + [p])
         == match pol.addKey(p)
            case None => Grouped(pol, listing)
            case Some(k) => Grouped(pol, listing)[k := FilesAt(Grouped(pol, listing), k) + [p]]
  {
    assert (listing + [p])[..|listing|] == listing;
  }

  predicate Enumerates<P(==)>(listing: seq<P>, paths: set<P>) {
    && (forall i, j :: 0 <= i < j < |listing| ==> listing[i] != listing[j])
    && (forall p :: p in listing ==> p in paths)
    && (forall p :: p in paths ==> p in listing)
  }

  lemma {:induction false} GroupedSpec<P(!new)>(pol: Policy<P>, listing: seq<P>, k: string)
    requires Coherent(pol)
    requires forall i, j :: 0 <= i < j < |listing| ==> listing[i] != listing[j]
    ensures forall p :: Holds(Grouped(pol, listing), k, p) <==> p in listing && pol.addKey(p) == Some(k)
    ensures k in Grouped(pol, listing) ==> Grouped(pol, listing)[k] != [] && DistinctKeys(pol.name, Grouped(pol, listing)[k])
    decreases |listing|
  {
    if listing != [] {
      var n := |listing| - 1;
      var before := Grouped(pol, listing[..n]);
      GroupedSpec(pol, listing[..n], k);
      assert listing == listing[..n] + [listing[n]];
      var p := listing[n];
      if pol.addKey(p) == Some(k) && k in before {
        forall i | 0 <= i < |before[k]| ensures pol.name(before[k][i]) != pol.name(p) {
          assert Holds(before, k, before[k][i]);
        }
      }
    }
  }

  /** Every accepted path of the listing is in the scan, duplicates or not. */
  lemma {:induction false} GroupedHolds<P>(pol: Policy<P>, listing: seq<P>, p: P)
    requires p in listing && pol.addKey(p).Some?
    ensures Holds(Grouped(pol, listing), pol.addKey(p).value, p)
    decreases |listing|
  {
    var n := |listing| - 1;
    if listing[n] != p {
      assert listing == listing[..n] + [listing[n]];
      GroupedHolds(pol, listing[..n], p);
    }
  }

  lemma ScanHolds<P>(pol: Policy<P>, listing: seq<P>, p: P)
    requires p in listing && pol.addKey(p).Some?
    ensures Holds(Scan(pol, listing), pol.addKey(p).value, p)
  {
    GroupedHolds(pol, listing, p);
    SortKeepsElements(pol.down, pol.name, Grouped(pol, listing)[pol.addKey(p).value], p);
  }

  lemma ScanSpec<P(!new)>(pol: Policy<P>, listing: seq<P>, paths: set<P>)
    requires Coherent(pol) && Enumerates(listing, paths)
    ensures WellFormed(pol.down, pol.name, Scan(pol, listing))
    ensures forall k, p :: Holds(Scan(pol, listing), k, p) <==> p in paths && pol.addKey(p) == Some(k)
  {
    var m := Grouped(pol, listing);
    forall k | k in m ensures Scan(pol, listing)[k] != [] && Strict(pol.down, pol.name, Scan(pol, listing)[k]) {
      GroupedSpec(pol, listing, k);
      SortIsStrict(pol.down, pol.name, m[k]);
      SortKeepsElements(pol.down, pol.name, m[k], m[k][0]);
    }
    forall k, p ensures Holds(Scan(pol, listing), k, p) <==> p in paths && pol.addKey(p) == Some(k) {
      GroupedSpec(pol, listing, k);
      if k in m {
        SortKeepsElements(pol.down, pol.name, m[k], p);
      }
      assert Holds(m, k, p) <==> p in listing && pol.addKey(p) == Some(k);
    }
  }

  /** The order in which the directory happens to be listed does not matter. */
  lemma ScanIgnoresListingOrder<P(!new)>(pol: Policy<P>, a: seq<P>, b: seq<P>, paths: set<P>)
    requires Coherent(pol) && Enumerates(a, paths) && Enumerates(b, paths)
    ensures Scan(pol, a) == Scan(pol, b)
  {
    ScanSpec(pol, a, paths);
    ScanSpec(pol, b, paths);
    SameHoldingsSameIndex(pol.down, pol.name, Scan(pol, a), Scan(pol, b));
  }

  /** Listing more paths than there are files changes the result exactly when one of the
      extra paths would be accepted (a directory with an archive's name, say). */
  lemma ScanSeesExtraPaths<P(!new)>(pol: Policy<P>, a: seq<P>, all: set<P>, b: seq<P>, files: set<P>)
    requires Coherent(pol) && Enumerates(a, all) && Enumerates(b, files) && files <= all
    ensures Scan(pol, a) == Scan(pol, b) <==> forall p :: p in all && p !in files ==> pol.addKey(p).None?
  {
    ScanSpec(pol, a, all);
    ScanSpec(pol, b, files);
    forall p | p in all && pol.addKey(p).Some? ensures Holds(Scan(pol, a), pol.addKey(p).value, p) {}
    if Scan(pol, a) != Scan(pol, b) && forall p :: p in all && p !in files ==> pol.addKey(p).None? {
      SameHoldingsSameIndex(pol.down, pol.name, Scan(pol, a), Scan(pol, b));
    }
  }

  // --------------------------------------------------------------------------- the states

  datatype Event<P> = Created(path: P) | Modified(path: P) | Deleted(path: P) | Moved(src: P, dst: P)

  /** What a handler still has to do: `Check` is the `is_file` test, `Stat` reads the size of
      the file to build the entry, `Enter` and `Remove` are the two locked sections. */
  datatype Work<P> = Check(path: P) | Stat(path: P) | Enter(path: P) | Remove(path: P)

  datatype Entry<P> = Entry(id: nat, path: P)

  datatype Computed<D> = Computed(id: nat, digest: D)

  /** `files` is the directory, `issued` every entry object ever built, `memo` the digest
      stored on an entry object, `hashed` the digests readers have computed so far. */
  datatype State<P, C, D> = State(
    files: map<P, C>,
    queue: seq<Event<P>>,
    work: seq<Work<P>>,
    alive: bool,
    index: Index<Entry<P>>,
    issued: map<nat, P>,
    nextId: nat,
    memo: map<nat, D>,
    hashed: seq<Computed<D>>)

  function Handler<P>(e: Event<P>): seq<Work<P>> {
    match e
    case Created(p) => [Check(p)]
    case Modified(p) => [Check(p)]
    case Deleted(p) => [Remove(p)]
    case Moved(p, q) => [Remove(p), Check(q)]
  }

  function Handlers<P>(queue: seq<Event<P>>): seq<Work<P>> {
    if queue == [] then [] else Handlers(queue[..|queue| - 1]) + Handler(queue[|queue| - 1])
  }

  /** Everything the observer thread has still to do, oldest first. */
  function Pending<P, C, D>(s: State<P, C, D>): seq<Work<P>> {
    s.work + Handlers(s.queue)
  }

  function NameOf<P>(pol: Policy<P>): Entry<P> -> string {
    (e: Entry<P>) => pol.name(e.path)
  }

  // ---------------------------------------------------------------------------- the steps

  datatype Step<P, C, D> =
    | Write(path: P, content: C, created: bool)
    | Delete(path: P)
    | Move(src: P, dst: P)
    | TakeEvent
    | Handle
    | Hash(id: nat)
    | Store(id: nat, digest: D)

  ghost predicate Enabled<P, C, D>(s: State<P, C, D>, step: Step<P, C, D>) {
    match step
    case Write(_, _, _) => true
    case Delete(p) => p in s.files
    case Move(p, q) => p in s.files && p != q
    case TakeEvent => s.alive && s.work == [] && s.queue != []
    case Handle => s.alive && s.work != []
    case Hash(id) => id in s.issued && s.issued[id] in s.files
    case Store(id, d) => Computed(id, d) in s.hashed
  }

  function WithEntry<P>(pol: Policy<P>, m: Index<Entry<P>>, e: Entry<P>): Index<Entry<P>> {
    match pol.addKey(e.path)
    case None => m
    case Some(k) => Put(pol.down, NameOf(pol), m, k, e)
  }

  /** The state after the locked section of `_add_or_update`, given the new dictionary. */
  function Inserted<P, C, D>(s: State<P, C, D>, m': Index<Entry<P>>): State<P, C, D>
    requires s.work != []
  {
    s.(work := s.work[1..], index := m', issued := s.issued[s.nextId := s.work[0].path], nextId := s.nextId + 1)
  }

  /** One micro-step of the observer thread. A file that vanished between the `is_file` test
      and `stat` raises out of the handler and ends the thread. */
  function HandleStep<P, C, D>(pol: Policy<P>, s: State<P, C, D>): State<P, C, D>
    requires s.work != []
  {
    var rest := s.work[1..];
    match s.work[0]
    case Check(p) =>
      s.(work := if p in s.files && pol.addKey(p).Some? then [Stat(p)] + rest else rest)
    case Stat(p) =>
      if p in s.files then s.(work := [Enter(p)] + rest) else s.(alive := false, work := rest)
    case Enter(p) =>
      Inserted(s, WithEntry(pol, s.index, Entry(s.nextId, p)))
    case Remove(p) =>
      s.(work := rest,
      index := match pol.removeKey(p) case None => s.index case Some(k) => Drop(NameOf(pol), s.index, k, pol.name(p)))
  }

  ghost function Apply<P, C, D>(pol: Policy<P>, hash: C -> D, s: State<P, C, D>, step: Step<P, C, D>): State<P, C, D>
    requires Enabled(s, step)
  {
    match step
    case Write(p, c, created) =>
      s.(files := s.files[p := c], queue := s.queue + [if created then Created(p) else Modified(p)])
    case Delete(p) => s.(files := s.files - {p}, queue := s.queue + [Deleted(p)])
    case Move(p, q) => s.(files := s.files[q := s.files[p]] - {p}, queue := s.queue + [Moved(p, q)])
    case TakeEvent => s.(work := Handler(s.queue[0]), queue := s.queue[1..])
    case Handle => HandleStep(pol, s)
    case Hash(id) => s.(hashed := s.hashed + [Computed(id, hash(s.files[s.issued[id]]))])
    case Store(id, d) => s.(memo := s.memo[id := d])
  }

  // ------------------------------------------------------------------------ the invariant

  ghost predicate Listed<P(!new), C, D>(s: State<P, C, D>, e: Entry<P>) {
    exists k :: Holds(s.index, k, e)
  }

  /** The index and the directory say the same about one path. */
  ghost predicate Agrees<P(!new), C, D>(pol: Policy<P>, s: State<P, C, D>, p: P) {
    && (forall k, e :: Holds(s.index, k, e) && e.path == p ==> p in s.files && pol.addKey(p) == Some(k))
    && (p in s.files && pol.addKey(p).Some? ==> exists e: Entry<P> :: e.path == p && Holds(s.index, pol.addKey(p).value, e))
  }

  /** A digest stored on, or about to be stored on, a listed entry is that of the present content. */
  ghost predicate DigestsCurrent<P(!new), C, D(!new)>(hash: C -> D, s: State<P, C, D>, p: P) {
    forall id :: Listed(s, Entry(id, p)) ==>
      && (id in s.memo ==> p in s.files && s.memo[id] == hash(s.files[p]))
      && (forall d :: Computed(id, d) in s.hashed ==> p in s.files && d == hash(s.files[p]))
  }

  /** The last thing left to do for a path, if anything is. */
  function Last<P(==)>(work: seq<Work<P>>, p: P): Option<Work<P>> {
    if work == [] then None
    else if work[|work| - 1].path == p then Some(work[|work| - 1])
    else Last(work[..|work| - 1], p)
  }

  ghost predicate PathInvariant<P(!new), C, D(!new)>(pol: Policy<P>, hash: C -> D, s: State<P, C, D>, p: P) {
    match Last(Pending(s), p)
    case None => Agrees(pol, s, p) && DigestsCurrent(hash, s, p)
    case Some(Remove(_)) => p !in s.files
    case Some(_) => p in s.files
  }

  ghost predicate WorkShape<P>(pol: Policy<P>, work: seq<Work<P>>) {
    && (forall i :: 0 <= i < |work| - 1 ==> work[i].Remove?)
    && (forall w :: w in work && (w.Stat? || w.Enter?) ==> pol.addKey(w.path).Some?)
  }

  ghost predicate Structure<P(!new), C, D(!new)>(pol: Policy<P>, s: State<P, C, D>) {
    && WellFormed(pol.down, NameOf(pol), s.index)
    && (forall k, e :: Holds(s.index, k, e) ==> pol.addKey(e.path) == Some(k) && e.id in s.issued && s.issued[e.id] == e.path)
    && (forall id :: id in s.issued ==> id < s.nextId)
    && (forall id :: id in s.memo ==> id in s.issued)
    && (forall c :: c in s.hashed ==> c.id in s.issued)
    && WorkShape(pol, s.work)
  }

  ghost predicate Invariant<P(!new), C, D(!new)>(pol: Policy<P>, hash: C -> D, s: State<P, C, D>) {
    && Structure(pol, s)
    && (!s.alive ==> s.queue != [])
    && forall p :: PathInvariant(pol, hash, s, p)
  }

  // ------------------------------------------------------------- what is left to do per path

  lemma {:induction false} LastConcat<P>(a: seq<Work<P>>, b: seq<Work<P>>, p: P)
    ensures Last(a + b, p) == if Last(b, p).Some? then Last(b, p) else Last(a, p)
    decreases |b|
  {
    if b == [] {
      assert a + b == a;
    } else {
      var n := |b| - 1;
      LastConcat(a, b[..n], p);
      assert (a + b)[..|a + b| - 1] == a + b[..n];
    }
  }

  lemma LastIsOf<P>(work: seq<Work<P>>, p: P)
    ensures Last(work, p).Some? ==> Last(work, p).value in work && Last(work, p).value.path == p
    ensures Last(work, p).None? ==> forall w :: w in work ==> w.path != p
  {
    if work != [] {
      LastIsOf(work[..|work| - 1], p);
      assert work == work[..|work| - 1] + [work[|work| - 1]];
    }
  }

  lemma {:induction false} HandlersFront<P>(queue: seq<Event<P>>)
    requires queue != []
    ensures Handlers(queue) == Handler(queue[0]) + Handlers(queue[1..])
    decreases |queue|
  {
    var n := |queue| - 1;
    if n == 0 {
      assert queue[..0] == [] && queue[1..] == [];
    } else {
      HandlersFront(queue[..n]);
      assert queue[..n][1..] == queue[1..][..n - 1];
      assert queue[1..][|queue[1..]| - 1] == queue[n];
      assert Handlers(queue[1..]) == Handlers(queue[1..][..n - 1]) + Handler(queue[n]);
    }
  }

  lemma PendingAfterEvent<P, C, D>(s: State<P, C, D>, s': State<P, C, D>, e: Event<P>, q: P)
    requires s'.work == s.work && s'.queue == s.queue + [e]
    ensures Last(Pending(s'), q) == if Last(Handler(e), q).Some? then Last(Handler(e), q) else Last(Pending(s), q)
  {
    assert s'.queue[..|s'.queue| - 1] == s.queue;
    assert Pending(s') == Pending(s) + Handler(e);
    LastConcat(Pending(s), Handler(e), q);
  }

  lemma LastOfHandler<P>(e: Event<P>, q: P)
    ensures e.Created? || e.Modified? ==> Last(Handler(e), q) == if q == e.path then Some(Check(q)) else None
    ensures e.Deleted? ==> Last(Handler(e), q) == if q == e.path then Some(Remove(q)) else None
    ensures e.Moved? && e.src != e.dst ==>
              Last(Handler(e), q) == if q == e.dst then Some(Check(q)) else if q == e.src then Some(Remove(q)) else None
  {
    if e.Moved? {
      assert Handler(e)[..1] == [Remove(e.src)];
      assert Last([Remove(e.src)], q) == if q == e.src then Some(Remove(e.src)) else None by {
        assert [Remove(e.src)][..0] == [];
      }
    }
  }

  // ---------------------------------------------------------------- every step keeps the invariant

  /** A path whose file, index entries and digests are untouched keeps its part of the invariant. */
  lemma FrameSamePath<P(!new), C, D(!new)>(pol: Policy<P>, hash: C -> D, s: State<P, C, D>, s': State<P, C, D>, q: P)
    requires PathInvariant(pol, hash, s, q)
    requires Last(Pending(s'), q) == Last(Pending(s), q)
    requires q in s.files <==> q in s'.files
    requires q in s.files ==> s'.files[q] == s.files[q]
    requires forall k, e: Entry<P> :: e.path == q ==> (Holds(s'.index, k, e) <==> Holds(s.index, k, e))
    requires s'.memo == s.memo && s'.hashed == s.hashed
    ensures PathInvariant(pol, hash, s', q)
  {
    forall id ensures Listed(s', Entry(id, q)) ==> Listed(s, Entry(id, q)) {
      if k :| Holds(s'.index, k, Entry(id, q)) {
        assert Holds(s.index, k, Entry(id, q));
      }
    }
  }

  lemma FileStepKeeps<P(!new), C, D(!new)>(pol: Policy<P>, hash: C -> D, s: State<P, C, D>, step: Step<P, C, D>)
    requires Invariant(pol, hash, s) && Enabled(s, step) && (step.Write? || step.Delete? || step.Move?)
    ensures Invariant(pol, hash, Apply(pol, hash, s, step))
  {
    var s' := Apply(pol, hash, s, step);
    var e := s'.queue[|s.queue|];
    forall q ensures PathInvariant(pol, hash, s', q) {
      assert PathInvariant(pol, hash, s, q);
      PendingAfterEvent(s, s', e, q);
      LastOfHandler(e, q);
      if Last(Handler(e), q).None? {
        FrameSamePath(pol, hash, s, s', q);
      }
    }
  }

  lemma TakeEventKeeps<P(!new), C, D(!new)>(pol: Policy<P>, hash: C -> D, s: State<P, C, D>)
    requires Invariant(pol, hash, s) && Enabled(s, TakeEvent)
    ensures Invariant(pol, hash, Apply(pol, hash, s, TakeEvent))
  {
    var s' := Apply(pol, hash, s, TakeEvent);
    HandlersFront(s.queue);
    assert Pending(s') == Pending(s);
    forall q ensures PathInvariant(pol, hash, s', q) {
      assert PathInvariant(pol, hash, s, q);
      FrameSamePath(pol, hash, s, s', q);
    }
  }

  lemma LastAfterHead<P>(w: Work<P>, rest: seq<Work<P>>, q: P)
    ensures Last([w] + rest, q) == if Last(rest, q).Some? then Last(rest, q) else if w.path == q then Some(w) else None
  {
    LastConcat([w], rest, q);
    assert [w][..0] == [];
  }

  /** Steps that touch no entry: the head of the work list moves on or is dropped. */
  lemma AdvancedPath<P(!new), C, D(!new)>(pol: Policy<P>, hash: C -> D, s: State<P, C, D>, w': Work<P>, q: P)
    requires PathInvariant(pol, hash, s, q)
    requires s.work != [] && s.work[0].path == w'.path && w'.path in s.files && !w'.Remove?
    ensures PathInvariant(pol, hash, s.(work := [w'] + s.work[1..]), q)
  {
    var s' := s.(work := [w'] + s.work[1..]);
    var rest := s.work[1..] + Handlers(s.queue);
    assert Pending(s) == [s.work[0]] + rest && Pending(s') == [w'] + rest;
    LastAfterHead(s.work[0], rest, q);
    LastAfterHead(w', rest, q);
    if q != w'.path || Last(rest, q).Some? {
      FrameSamePath(pol, hash, s, s', q);
    }
  }

  lemma DroppedPath<P(!new), C, D(!new)>(pol: Policy<P>, hash: C -> D, s: State<P, C, D>, s': State<P, C, D>, q: P)
    requires Structure(pol, s) && PathInvariant(pol, hash, s, q)
    requires s.work != [] && !s.work[0].Remove? && (s.work[0].path in s.files ==> pol.addKey(s.work[0].path).None?)
    requires s' == s.(work := s.work[1..], alive := s'.alive)
    ensures PathInvariant(pol, hash, s', q)
  {
    var rest := s.work[1..] + Handlers(s.queue);
    assert Pending(s) == [s.work[0]] + rest && Pending(s') == rest;
    LastAfterHead(s.work[0], rest, q);
    if q == s.work[0].path && Last(rest, q).None? {
      NotIndexed(pol, s, q);
    } else {
      FrameSamePath(pol, hash, s, s', q);
    }
  }

  lemma QuietStructure<P(!new), C, D(!new)>(pol: Policy<P>, s: State<P, C, D>)
    requires Structure(pol, s) && s.work != [] && (s.work[0].Check? || s.work[0].Stat?)
    ensures Structure(pol, HandleStep(pol, s))
  {
    assert s.work[0] in s.work;
  }

  lemma QuietWorkKeepsPath<P(!new), C, D(!new)>(pol: Policy<P>, hash: C -> D, s: State<P, C, D>, q: P)
    requires Structure(pol, s) && s.work != [] && (s.work[0].Check? || s.work[0].Stat?)
    requires PathInvariant(pol, hash, s, q)
    ensures PathInvariant(pol, hash, HandleStep(pol, s), q)
  {
    var s' := HandleStep(pol, s);
    assert s.work[0] in s.work;
    if s'.work == s.work[1..] {
      DroppedPath(pol, hash, s, s', q);
    } else {
      AdvancedPath(pol, hash, s, s'.work[0], q);
    }
  }

  lemma QuietWorkKeeps<P(!new), C, D(!new)>(pol: Policy<P>, hash: C -> D, s: State<P, C, D>)
    requires Invariant(pol, hash, s) && Enabled(s, Handle) && (s.work[0].Check? || s.work[0].Stat?)
    ensures Invariant(pol, hash, HandleStep(pol, s))
  {
    var s' := HandleStep(pol, s);
    QuietStructure(pol, s);
    forall q ensures PathInvariant(pol, hash, s', q) {
      assert PathInvariant(pol, hash, s, q);
      QuietWorkKeepsPath(pol, hash, s, q);
    }
    if !s'.alive {
      DeathLeavesEvents(pol, hash, s);
    }
  }

  /** `stat` can only fail on a file whose removal is still queued. */
  lemma DeathLeavesEvents<P(!new), C, D(!new)>(pol: Policy<P>, hash: C -> D, s: State<P, C, D>)
    requires Structure(pol, s) && s.work != [] && s.work[0].Stat? && s.work[0].path !in s.files
    requires PathInvariant(pol, hash, s, s.work[0].path)
    ensures s.queue != []
  {
    assert Pending(s) == [s.work[0]] + Handlers(s.queue);
    LastAfterHead(s.work[0], Handlers(s.queue), s.work[0].path);
  }

  lemma NotIndexed<P(!new), C, D(!new)>(pol: Policy<P>, s: State<P, C, D>, q: P)
    requires Structure(pol, s) && pol.addKey(q).None?
    ensures forall k, e :: Holds(s.index, k, e) ==> e.path != q
  {
  }

  /** Inserting a path replaces exactly the entries of that path by the fresh one. */
  lemma InsertHolds<P(!new), C, D(!new)>(pol: Policy<P>, s: State<P, C, D>, p: P, k0: string, e0: Entry<P>, k: string, e: Entry<P>)
    requires Coherent(pol) && Structure(pol, s) && pol.addKey(p) == Some(k0) && e0.path == p
    ensures Holds(Put(pol.down, NameOf(pol), s.index, k0, e0), k, e)
       <==> (k == k0 && e == e0) || (Holds(s.index, k, e) && e.path != p)
  {
    PutHolds(pol.down, NameOf(pol), s.index, k0, e0, k, e);
    assert NameOf(pol)(e) == pol.name(e.path) && NameOf(pol)(e0) == pol.name(p);
    if Holds(s.index, k, e) {
      assert pol.addKey(e.path) == Some(k);
    }
  }

  ghost predicate Replaced<P(!new)>(m: Index<Entry<P>>, m': Index<Entry<P>>, k0: string, e0: Entry<P>) {
    forall k, e :: Holds(m', k, e) <==> (k == k0 && e == e0) || (Holds(m, k, e) && e.path != e0.path)
  }

  lemma InsertStructure<P(!new), C, D(!new)>(pol: Policy<P>, s: State<P, C, D>, m': Index<Entry<P>>, k0: string)
    requires Structure(pol, s) && s.work != [] && s.work[0].Enter? && pol.addKey(s.work[0].path) == Some(k0)
    requires WellFormed(pol.down, NameOf(pol), m') && Replaced(s.index, m', k0, Entry(s.nextId, s.work[0].path))
    ensures Structure(pol, Inserted(s, m'))
  {
    var s' := Inserted(s, m');
    forall k, e | Holds(m', k, e)
      ensures pol.addKey(e.path) == Some(k) && e.id in s'.issued && s'.issued[e.id] == e.path
    {
      if Holds(s.index, k, e) {
        assert e.id < s.nextId;
      }
    }
  }

  lemma InsertPath<P(!new), C, D(!new)>(pol: Policy<P>, hash: C -> D, s: State<P, C, D>, m': Index<Entry<P>>, k0: string, q: P)
    requires Structure(pol, s) && PathInvariant(pol, hash, s, q)
    requires s.work != [] && s.work[0].Enter? && pol.addKey(s.work[0].path) == Some(k0)
    requires Replaced(s.index, m', k0, Entry(s.nextId, s.work[0].path))
    ensures PathInvariant(pol, hash, Inserted(s, m'), q)
  {
    var s' := Inserted(s, m');
    var rest := s.work[1..] + Handlers(s.queue);
    assert Pending(s) == [s.work[0]] + rest && Pending(s') == rest;
    LastAfterHead(s.work[0], rest, q);
    if q != s.work[0].path {
      FrameSamePath(pol, hash, s, s', q);
    } else if Last(rest, q).None? {
      FreshEntryAgrees(pol, hash, s, m', k0);
    }
  }

  lemma FreshEntryAgrees<P(!new), C, D(!new)>(pol: Policy<P>, hash: C -> D, s: State<P, C, D>, m': Index<Entry<P>>, k0: string)
    requires Structure(pol, s)
    requires s.work != [] && s.work[0].path in s.files && pol.addKey(s.work[0].path) == Some(k0)
    requires Replaced(s.index, m', k0, Entry(s.nextId, s.work[0].path))
    ensures Agrees(pol, Inserted(s, m'), s.work[0].path) && DigestsCurrent(hash, Inserted(s, m'), s.work[0].path)
  {
    var s', q, e0 := Inserted(s, m'), s.work[0].path, Entry(s.nextId, s.work[0].path);
    assert Holds(m', k0, e0);
    forall id | Listed(s', Entry(id, q)) ensures id == s.nextId {
      var k :| Holds(s'.index, k, Entry(id, q));
    }
    assert s.nextId !in s.issued;
  }

  lemma PutReplaces<P(!new), C, D(!new)>(pol: Policy<P>, s: State<P, C, D>, k0: string, e0: Entry<P>)
    requires Coherent(pol) && Structure(pol, s) && pol.addKey(e0.path) == Some(k0)
    ensures WellFormed(pol.down, NameOf(pol), Put(pol.down, NameOf(pol), s.index, k0, e0))
    ensures Replaced(s.index, Put(pol.down, NameOf(pol), s.index, k0, e0), k0, e0)
  {
    PutKeepsWellFormed(pol.down, NameOf(pol), s.index, k0, e0);
    forall k, e
      ensures Holds(Put(pol.down, NameOf(pol), s.index, k0, e0), k, e)
         <==> (k == k0 && e == e0) || (Holds(s.index, k, e) && e.path != e0.path)
    {
      InsertHolds(pol, s, e0.path, k0, e0, k, e);
    }
  }

  lemma InsertedKeeps<P(!new), C, D(!new)>(pol: Policy<P>, hash: C -> D, s: State<P, C, D>, m': Index<Entry<P>>, k0: string)
    requires Invariant(pol, hash, s) && s.work != [] && s.work[0].Enter? && pol.addKey(s.work[0].path) == Some(k0)
    requires WellFormed(pol.down, NameOf(pol), m') && Replaced(s.index, m', k0, Entry(s.nextId, s.work[0].path))
    ensures Invariant(pol, hash, Inserted(s, m'))
  {
    InsertStructure(pol, s, m', k0);
    forall q ensures PathInvariant(pol, hash, Inserted(s, m'), q) {
      InsertPath(pol, hash, s, m', k0, q);
    }
  }

  lemma InsertKeepsUnder<P(!new), C, D(!new)>(pol: Policy<P>, hash: C -> D, s: State<P, C, D>, k0: string)
    requires Coherent(pol) && Invariant(pol, hash, s)
    requires s.work != [] && s.work[0].Enter? && pol.addKey(s.work[0].path) == Some(k0)
    ensures Invariant(pol, hash, Inserted(s, Put(pol.down, NameOf(pol), s.index, k0, Entry(s.nextId, s.work[0].path))))
  {
    var e0 := Entry(s.nextId, s.work[0].path);
    PutReplaces(pol, s, k0, e0);
    InsertedKeeps(pol, hash, s, Put(pol.down, NameOf(pol), s.index, k0, e0), k0);
  }

  lemma HandleInsert<P(!new), C, D>(pol: Policy<P>, s: State<P, C, D>) returns (k0: string)
    requires WorkShape(pol, s.work) && s.work != [] && s.work[0].Enter?
    ensures pol.addKey(s.work[0].path) == Some(k0)
    ensures HandleStep(pol, s) == Inserted(s, Put(pol.down, NameOf(pol), s.index, k0, Entry(s.nextId, s.work[0].path)))
  {
    assert s.work[0] in s.work;
    k0 := pol.addKey(s.work[0].path).value;
  }

  lemma InsertKeeps<P(!new), C, D(!new)>(pol: Policy<P>, hash: C -> D, s: State<P, C, D>)
    requires Coherent(pol) && Invariant(pol, hash, s) && s.work != [] && s.work[0].Enter?
    ensures Invariant(pol, hash, HandleStep(pol, s))
  {
    var k0 := HandleInsert(pol, s);
    InsertKeepsUnder(pol, hash, s, k0);
  }

  lemma RemoveKeeps<P(!new), C, D(!new)>(pol: Policy<P>, hash: C -> D, s: State<P, C, D>)
    requires Coherent(pol) && Invariant(pol, hash, s) && s.work != [] && s.work[0].Remove?
    ensures Invariant(pol, hash, HandleStep(pol, s))
  {
    var s' := HandleStep(pol, s);
    var p := s.work[0].path;
    forall k, e ensures Holds(s'.index, k, e) <==> Holds(s.index, k, e) && e.path != p {
      if pol.removeKey(p).Some? {
        DropHolds(NameOf(pol), s.index, pol.removeKey(p).value, pol.name(p), k, e);
        assert NameOf(pol)(e) == pol.name(e.path);
      }
      if Holds(s.index, k, e) {
        assert pol.addKey(e.path) == Some(k);
      }
    }
    if pol.removeKey(p).Some? {
      DropKeepsWellFormed(pol.down, NameOf(pol), s.index, pol.removeKey(p).value, pol.name(p));
    }
    var rest := s.work[1..] + Handlers(s.queue);
    assert Pending(s) == [s.work[0]] + rest && Pending(s') == rest;
    forall q ensures PathInvariant(pol, hash, s', q) {
      assert PathInvariant(pol, hash, s, q);
      LastAfterHead(s.work[0], rest, q);
      if q != p {
        FrameSamePath(pol, hash, s, s', q);
      }
    }
  }

  lemma ReaderKeeps<P(!new), C, D(!new)>(pol: Policy<P>, hash: C -> D, s: State<P, C, D>, step: Step<P, C, D>)
    requires Invariant(pol, hash, s) && Enabled(s, step) && (step.Hash? || step.Store?)
    ensures Invariant(pol, hash, Apply(pol, hash, s, step))
  {
    forall q ensures PathInvariant(pol, hash, Apply(pol, hash, s, step), q) {
      assert PathInvariant(pol, hash, s, q);
      ReaderKeepsPath(pol, hash, s, step, q);
    }
  }

  lemma ReaderKeepsPath<P(!new), C, D(!new)>(pol: Policy<P>, hash: C -> D, s: State<P, C, D>, step: Step<P, C, D>, q: P)
    requires Structure(pol, s) && Enabled(s, step) && (step.Hash? || step.Store?)
    requires PathInvariant(pol, hash, s, q)
    ensures PathInvariant(pol, hash, Apply(pol, hash, s, step), q)
  {
    var s' := Apply(pol, hash, s, step);
    assert Pending(s') == Pending(s);
    if Last(Pending(s), q).None? {
      assert s'.index == s.index && s'.files == s.files && Agrees(pol, s', q);
      forall id | Listed(s', Entry(id, q))
        ensures id in s'.memo ==> q in s.files && s'.memo[id] == hash(s.files[q])
        ensures forall d :: Computed(id, d) in s'.hashed ==> q in s.files && d == hash(s.files[q])
      {
        var k :| Holds(s'.index, k, Entry(id, q));
        assert Listed(s, Entry(id, q)) && s.issued[id] == q;
      }
    }
  }

  lemma StepKeepsInvariant<P(!new), C, D(!new)>(pol: Policy<P>, hash: C -> D, s: State<P, C, D>, step: Step<P, C, D>)
    requires Coherent(pol) && Invariant(pol, hash, s) && Enabled(s, step)
    ensures Invariant(pol, hash, Apply(pol, hash, s, step))
  {
    match step
    case Write(_, _, _) => FileStepKeeps(pol, hash, s, step);
    case Delete(_) => FileStepKeeps(pol, hash, s, step);
    case Move(_, _) => FileStepKeeps(pol, hash, s, step);
    case TakeEvent => TakeEventKeeps(pol, hash, s);
    case Hash(_) => ReaderKeeps(pol, hash, s, step);
    case Store(_, _) => ReaderKeeps(pol, hash, s, step);
    case Handle =>
      match s.work[0]
      case Check(_) => QuietWorkKeeps(pol, hash, s);
      case Stat(_) => QuietWorkKeeps(pol, hash, s);
      case Enter(_) => InsertKeeps(pol, hash, s);
      case Remove(_) => RemoveKeeps(pol, hash, s);
  }

  // ------------------------------------------------------------------------------ whole runs

  function PathOf<P>(): Entry<P> -> P {
    (e: Entry<P>) => e.path
  }

  /** An index up to what a scan does not fix: object identity, size and digest. */
  function View<P>(m: Index<Entry<P>>): Index<P> {
    ProjectIndex(PathOf(), m)
  }

  /** The state `start()` leaves behind when nothing changes between the scan and the observer. */
  ghost predicate Started<P(!new), C, D(!new)>(pol: Policy<P>, s: State<P, C, D>, listing: seq<P>) {
    && Enumerates(listing, s.files.Keys) && View(s.index) == Scan(pol, listing)
    && s.alive && s.queue == [] && s.work == [] && s.memo == map[] && s.hashed == []
    && (forall k, e :: Holds(s.index, k, e) ==> e.id in s.issued && s.issued[e.id] == e.path)
    && (forall id :: id in s.issued ==> id < s.nextId)
  }

  ghost predicate StepAt<P(!new), C, D(!new)>(pol: Policy<P>, hash: C -> D, states: seq<State<P, C, D>>, steps: seq<Step<P, C, D>>, i: nat)
    requires |states| == |steps| + 1 && i < |steps|
  {
    Enabled(states[i], steps[i]) && states[i + 1] == Apply(pol, hash, states[i], steps[i])
  }

  ghost predicate Run<P(!new), C, D(!new)>(pol: Policy<P>, hash: C -> D, states: seq<State<P, C, D>>, steps: seq<Step<P, C, D>>) {
    |states| == |steps| + 1 && forall i: nat :: i < |steps| ==> StepAt(pol, hash, states, steps, i)
  }

  lemma ViewHolds<P(!new)>(m: Index<Entry<P>>, k: string, p: P)
    ensures Holds(View(m), k, p) <==> exists e: Entry<P> :: e.path == p && Holds(m, k, e)
  {
    if k in m {
      if Holds(View(m), k, p) {
        var i :| 0 <= i < |m[k]| && View(m)[k][i] == p;
        assert Holds(m, k, m[k][i]);
      }
      if e: Entry<P> :| e.path == p && Holds(m, k, e) {
        var i :| 0 <= i < |m[k]| && m[k][i] == e;
        assert View(m)[k][i] == p;
      }
    }
  }

  lemma ViewWellFormed<P(!new)>(pol: Policy<P>, m: Index<Entry<P>>)
    ensures WellFormed(pol.down, NameOf(pol), m) <==> WellFormed(pol.down, pol.name, View(m))
  {
    forall k | k in m ensures Strict(pol.down, NameOf(pol), m[k]) <==> Strict(pol.down, pol.name, View(m)[k]) {
      assert forall i :: 0 <= i < |m[k]| ==> NameOf(pol)(m[k][i]) == pol.name(View(m)[k][i]);
    }
    assert forall k :: k in m ==> |View(m)[k]| == |m[k]|;
  }

  /** The two locked sections, said of the index as readers see it. */
  function Handled<P>(pol: Policy<P>, w: Work<P>, m: Index<P>): Index<P> {
    match w
    case Enter(p) => (match pol.addKey(p) case None => m case Some(k) => Put(pol.down, pol.name, m, k, p))
    case Remove(p) => (match pol.removeKey(p) case None => m case Some(k) => Drop(pol.name, m, k, pol.name(p)))
    case _ => m
  }

  /** Seen through paths, a step of the observer is `Handled`, which is what the index classes'
      methods do to their filenames. */
  lemma HandledView<P(!new), C, D>(pol: Policy<P>, s: State<P, C, D>)
    requires WorkShape(pol, s.work) && s.work != []
    ensures View(HandleStep(pol, s).index) == Handled(pol, s.work[0], View(s.index))
  {
    assert s.work[0] in s.work;
    match s.work[0]
    case Check(_) => QuietView(pol, s);
    case Stat(_) => QuietView(pol, s);
    case Enter(_) => EnterView(pol, s);
    case Remove(_) => RemoveView(pol, s);
  }

  lemma QuietView<P(!new), C, D>(pol: Policy<P>, s: State<P, C, D>)
    requires s.work != [] && (s.work[0].Check? || s.work[0].Stat?)
    ensures HandleStep(pol, s).index == s.index
  {
  }

  lemma EnterView<P(!new), C, D>(pol: Policy<P>, s: State<P, C, D>)
    requires WorkShape(pol, s.work) && s.work != [] && s.work[0].Enter?
    ensures pol.addKey(s.work[0].path).Some?
    ensures View(HandleStep(pol, s).index) == Put(pol.down, pol.name, View(s.index), pol.addKey(s.work[0].path).value, s.work[0].path)
  {
    var k0 := HandleInsert(pol, s);
    ProjectPut(pol.down, NameOf(pol), PathOf(), pol.name, s.index, k0, Entry(s.nextId, s.work[0].path));
  }

  lemma RemoveView<P(!new), C, D>(pol: Policy<P>, s: State<P, C, D>)
    requires s.work != [] && s.work[0].Remove?
    ensures View(HandleStep(pol, s).index) == match pol.removeKey(s.work[0].path)
        case None => View(s.index)
        case Some(k) => Drop(pol.name, View(s.index), k, pol.name(s.work[0].path))
  {
    var p := s.work[0].path;
    if pol.removeKey(p).Some? {
      ProjectDrop(NameOf(pol), PathOf(), pol.name, s.index, pol.removeKey(p).value, pol.name(p));
    }
  }

  lemma StartedInvariant<P(!new), C, D(!new)>(pol: Policy<P>, hash: C -> D, s: State<P, C, D>, listing: seq<P>)
    requires Coherent(pol) && Started(pol, s, listing)
    ensures Invariant(pol, hash, s)
  {
    ScanSpec(pol, listing, s.files.Keys);
    ViewWellFormed(pol, s.index);
    forall k, e | Holds(s.index, k, e) ensures pol.addKey(e.path) == Some(k) && e.path in s.files {
      ViewHolds(s.index, k, e.path);
      assert Holds(Scan(pol, listing), k, e.path);
    }
    assert Pending(s) == [];
    forall p ensures PathInvariant(pol, hash, s, p) {
      if p in s.files && pol.addKey(p).Some? {
        assert Holds(Scan(pol, listing), pol.addKey(p).value, p);
        ViewHolds(s.index, pol.addKey(p).value, p);
      }
    }
  }

  lemma {:induction false} EveryRunKeepsInvariant<P(!new), C, D(!new)>(pol: Policy<P>, hash: C -> D, listing: seq<P>,
      states: seq<State<P, C, D>>, steps: seq<Step<P, C, D>>, i: nat)
    requires Coherent(pol) && Run(pol, hash, states, steps) && Started(pol, states[0], listing) && i < |states|
    ensures Invariant(pol, hash, states[i])
    decreases i
  {
    if i == 0 {
      StartedInvariant(pol, hash, states[0], listing);
    } else {
      EveryRunKeepsInvariant(pol, hash, listing, states, steps, i - 1);
      assert StepAt(pol, hash, states, steps, i - 1);
      StepKeepsInvariant(pol, hash, states[i - 1], steps[i - 1]);
    }
  }

  /** In every state of every run: no list is empty, every list is strictly in order (so names
      are unique), and every entry stands under the key its path is accepted under. */
  lemma ListsStaySound<P(!new), C, D(!new)>(pol: Policy<P>, hash: C -> D, listing: seq<P>,
      states: seq<State<P, C, D>>, steps: seq<Step<P, C, D>>, i: nat)
    requires Coherent(pol) && Run(pol, hash, states, steps) && Started(pol, states[0], listing) && i < |states|
    ensures forall k :: k in states[i].index ==> states[i].index[k] != [] && Strict(pol.down, NameOf(pol), states[i].index[k])
    ensures forall k, e :: Holds(states[i].index, k, e) ==> pol.addKey(e.path) == Some(k)
  {
    EveryRunKeepsInvariant(pol, hash, listing, states, steps, i);
  }

  /** In every state of every run: if index and directory disagree about a path, something
      for that path is still to be handled. */
  lemma DisagreementIsPending<P(!new), C, D(!new)>(pol: Policy<P>, hash: C -> D, listing: seq<P>,
      states: seq<State<P, C, D>>, steps: seq<Step<P, C, D>>, i: nat, p: P)
    requires Coherent(pol) && Run(pol, hash, states, steps) && Started(pol, states[0], listing) && i < |states|
    requires !Agrees(pol, states[i], p)
    ensures exists w :: w in Pending(states[i]) && w.path == p
  {
    EveryRunKeepsInvariant(pol, hash, listing, states, steps, i);
    assert PathInvariant(pol, hash, states[i], p);
    LastIsOf(Pending(states[i]), p);
  }

  lemma AgreeingIndexIsScan<P(!new), C, D(!new)>(pol: Policy<P>, s: State<P, C, D>, listing: seq<P>)
    requires Coherent(pol) && Structure(pol, s) && Enumerates(listing, s.files.Keys)
    requires forall p :: Agrees(pol, s, p)
    ensures View(s.index) == Scan(pol, listing)
  {
    ScanSpec(pol, listing, s.files.Keys);
    ViewWellFormed(pol, s.index);
    forall k, p ensures Holds(View(s.index), k, p) <==> Holds(Scan(pol, listing), k, p) {
      assert Agrees(pol, s, p);
      ViewHolds(s.index, k, p);
    }
    SameHoldingsSameIndex(pol.down, pol.name, View(s.index), Scan(pol, listing));
  }

  /** With nothing left to handle, the index is what a fresh scan of the directory would build,
      in whatever order that scan lists it; and the observer is still running. */
  lemma QuietIndexIsFreshScan<P(!new), C, D(!new)>(pol: Policy<P>, hash: C -> D, listing: seq<P>,
      states: seq<State<P, C, D>>, steps: seq<Step<P, C, D>>, i: nat, now: seq<P>)
    requires Coherent(pol) && Run(pol, hash, states, steps) && Started(pol, states[0], listing) && i < |states|
    requires states[i].queue == [] && states[i].work == [] && Enumerates(now, states[i].files.Keys)
    ensures View(states[i].index) == Scan(pol, now) && states[i].alive
  {
    EveryRunKeepsInvariant(pol, hash, listing, states, steps, i);
    assert Pending(states[i]) == [];
    forall p ensures Agrees(pol, states[i], p) {
      assert PathInvariant(pol, hash, states[i], p);
    }
    AgreeingIndexIsScan(pol, states[i], now);
  }

  /** A digest found on a listed entry is that of the file's present content, unless something
      for the path is still to be handled. */
  lemma StoredDigestIsCurrent<P(!new), C, D(!new)>(pol: Policy<P>, hash: C -> D, listing: seq<P>,
      states: seq<State<P, C, D>>, steps: seq<Step<P, C, D>>, i: nat, e: Entry<P>)
    requires Coherent(pol) && Run(pol, hash, states, steps) && Started(pol, states[0], listing) && i < |states|
    requires Listed(states[i], e) && e.id in states[i].memo
    ensures (e.path in states[i].files && states[i].memo[e.id] == hash(states[i].files[e.path]))
         || exists w :: w in Pending(states[i]) && w.path == e.path
  {
    EveryRunKeepsInvariant(pol, hash, listing, states, steps, i);
    assert PathInvariant(pol, hash, states[i], e.path);
    LastIsOf(Pending(states[i]), e.path);
    assert Listed(states[i], Entry(e.id, e.path));
  }

  /** The digest was computed at that step, from the content the object's file had then. */
  ghost predicate HashedAt<P(!new), C, D(!new)>(hash: C -> D, states: seq<State<P, C, D>>, steps: seq<Step<P, C, D>>, l: nat, id: nat, d: D)
    requires |states| == |steps| + 1 && l < |steps|
  {
    && steps[l] == Hash(id) && id in states[l].issued && states[l].issued[id] in states[l].files
    && d == hash(states[l].files[states[l].issued[id]])
  }

  lemma DigestsAreOfIssued<P(!new), C, D(!new)>(pol: Policy<P>, hash: C -> D, listing: seq<P>,
      states: seq<State<P, C, D>>, steps: seq<Step<P, C, D>>, i: nat)
    requires Coherent(pol) && Run(pol, hash, states, steps) && Started(pol, states[0], listing) && i < |states|
    ensures forall id :: id in states[i].memo ==> id in states[i].issued
    ensures forall c :: c in states[i].hashed ==> c.id in states[i].issued
  {
    EveryRunKeepsInvariant(pol, hash, listing, states, steps, i);
  }

  lemma HandlingHashesNothing<P(!new), C, D(!new)>(pol: Policy<P>, s: State<P, C, D>)
    requires s.work != []
    ensures HandleStep(pol, s).hashed == s.hashed && HandleStep(pol, s).memo == s.memo
  {
    match s.work[0]
    case Check(_) =>
    case Stat(_) =>
    case Enter(_) =>
    case Remove(_) =>
  }

  lemma DigestsStep<P(!new), C, D(!new)>(pol: Policy<P>, hash: C -> D, s: State<P, C, D>, step: Step<P, C, D>, id: nat, d: D)
    requires Enabled(s, step)
    ensures Computed(id, d) in Apply(pol, hash, s, step).hashed ==>
              Computed(id, d) in s.hashed || (step == Hash(id) && d == hash(s.files[s.issued[id]]))
    ensures id in Apply(pol, hash, s, step).memo && Apply(pol, hash, s, step).memo[id] == d ==>
              step == Store(id, d) || (id in s.memo && s.memo[id] == d)
  {
    if step.Handle? {
      HandlingHashesNothing(pol, s);
    }
  }

  lemma {:induction false} HashedSince<P(!new), C, D(!new)>(pol: Policy<P>, hash: C -> D, listing: seq<P>,
      states: seq<State<P, C, D>>, steps: seq<Step<P, C, D>>, i: nat, j: nat, id: nat, d: D)
    requires Coherent(pol) && Run(pol, hash, states, steps) && Started(pol, states[0], listing) && i <= j < |states|
    requires id !in states[i].issued && Computed(id, d) in states[j].hashed
    ensures exists l: nat :: i <= l < j && HashedAt(hash, states, steps, l, id, d)
    decreases j
  {
    DigestsAreOfIssued(pol, hash, listing, states, steps, j);
    if i < j {
      assert StepAt(pol, hash, states, steps, j - 1);
      DigestsStep(pol, hash, states[j - 1], steps[j - 1], id, d);
      if Computed(id, d) in states[j - 1].hashed {
        HashedSince(pol, hash, listing, states, steps, i, j - 1, id, d);
      } else {
        assert HashedAt(hash, states, steps, j - 1, id, d);
      }
    }
  }

  /** A late store never reaches an entry's successor: whatever digest is stored on an entry
      object was computed after the object was built, from the content of that later moment. */
  lemma {:induction false} DigestsAreComputedOnTheirEntry<P(!new), C, D(!new)>(pol: Policy<P>, hash: C -> D, listing: seq<P>,
      states: seq<State<P, C, D>>, steps: seq<Step<P, C, D>>, i: nat, j: nat, id: nat)
    requires Coherent(pol) && Run(pol, hash, states, steps) && Started(pol, states[0], listing) && i <= j < |states|
    requires id !in states[i].issued && id in states[j].memo
    ensures exists l: nat :: i <= l < j && HashedAt(hash, states, steps, l, id, states[j].memo[id])
    decreases j
  {
    DigestsAreOfIssued(pol, hash, listing, states, steps, j);
    if i < j {
      var d := states[j].memo[id];
      assert StepAt(pol, hash, states, steps, j - 1);
      DigestsStep(pol, hash, states[j - 1], steps[j - 1], id, d);
      if steps[j - 1] == Store(id, d) {
        HashedSince(pol, hash, listing, states, steps, i, j - 1, id, d);
      } else {
        DigestsAreComputedOnTheirEntry(pol, hash, listing, states, steps, i, j - 1, id);
      }
    }
  }

  // -------------------------------------------------------------- convergence once changes stop

  function WorkCost<P>(work: seq<Work<P>>): nat {
    if work == [] then 0
    else (match work[0] case Check(_) => 3 case Stat(_) => 2 case Enter(_) => 1 case Remove(_) => 1) + WorkCost(work[1..])
  }

  function QueueCost<P>(queue: seq<Event<P>>): nat {
    if queue == [] then 0 else 1 + WorkCost(Handler(queue[0])) + QueueCost(queue[1..])
  }

  lemma HandleStepCostsLess<P, C, D>(pol: Policy<P>, s: State<P, C, D>)
    requires s.work != []
    ensures HandleStep(pol, s).queue == s.queue && WorkCost(HandleStep(pol, s).work) < WorkCost(s.work)
  {
    var work' := HandleStep(pol, s).work;
    if work' != s.work[1..] {
      assert work'[1..] == s.work[1..];
    }
  }

  /** The observer thread left to itself: it works until it has died or has nothing left. */
  ghost function Drained<P, C, D>(pol: Policy<P>, s: State<P, C, D>): State<P, C, D>
    decreases WorkCost(s.work) + QueueCost(s.queue)
  {
    if !s.alive || (s.work == [] && s.queue == []) then s
    else if s.work != [] then
      HandleStepCostsLess(pol, s);
      Drained(pol, HandleStep(pol, s))
    else
      Drained(pol, s.(work := Handler(s.queue[0]), queue := s.queue[1..]))
  }

  /** How the observer dies: a file is written, its handler starts, and the file is gone between
      the `is_file` test and the `stat`. */
  lemma ObserverCanDie<P(!new), C, D(!new)>(pol: Policy<P>, hash: C -> D, s: State<P, C, D>, p: P, c: C)
      returns (states: seq<State<P, C, D>>, steps: seq<Step<P, C, D>>)
    requires Started(pol, s, []) && pol.addKey(p).Some?
    ensures |steps| == 5 && Run(pol, hash, states, steps) && states[0] == s
    ensures !states[5].alive && states[5].queue == [Deleted(p)]
  {
    steps := [Write(p, c, true), TakeEvent, Handle, Delete(p), Handle];
    var s1 := Apply(pol, hash, s, steps[0]);
    var s2 := Apply(pol, hash, s1, steps[1]);
    var s3 := Apply(pol, hash, s2, steps[2]);
    var s4 := Apply(pol, hash, s3, steps[3]);
    var s5 := Apply(pol, hash, s4, steps[4]);
    states := [s, s1, s2, s3, s4, s5];
    assert s.files == map[] by {
      assert forall q :: q !in s.files;
    }
    assert forall i: nat | i < 5 :: StepAt(pol, hash, states, steps, i);
  }

  /** The handler is not sitting between its `is_file` test and its `stat` on a vanished file. */
  ghost predicate Steady<P, C, D>(s: State<P, C, D>) {
    forall w :: w in s.work && w.Stat? ==> w.path in s.files
  }

  lemma HandleKeepsSteady<P, C, D>(pol: Policy<P>, s: State<P, C, D>)
    requires s.work != [] && s.alive
    ensures HandleStep(pol, s).files == s.files
    ensures Steady(s) <==> HandleStep(pol, s).alive && Steady(HandleStep(pol, s))
  {
    assert s.work == [s.work[0]] + s.work[1..];
    var s' := HandleStep(pol, s);
    assert forall w :: w in s.work[1..] ==> w in s'.work;
  }

  lemma {:induction false} DrainReachesAgreement<P(!new), C, D(!new)>(pol: Policy<P>, hash: C -> D, s: State<P, C, D>)
    requires Coherent(pol) && Invariant(pol, hash, s) && s.alive
    ensures Drained(pol, s).alive <==> Steady(s)
    ensures Drained(pol, s).alive ==> Drained(pol, s).work == [] && Drained(pol, s).queue == []
    ensures Drained(pol, s).files == s.files && Invariant(pol, hash, Drained(pol, s))
    decreases WorkCost(s.work) + QueueCost(s.queue)
  {
    if s.work != [] {
      StepKeepsInvariant(pol, hash, s, Handle);
      HandleStepCostsLess(pol, s);
      HandleKeepsSteady(pol, s);
      var s' := HandleStep(pol, s);
      if s'.alive {
        DrainReachesAgreement(pol, hash, s');
      }
    } else if s.queue != [] {
      StepKeepsInvariant(pol, hash, s, TakeEvent);
      DrainReachesAgreement(pol, hash, Apply(pol, hash, s, TakeEvent));
    }
  }

  /** From any state a run can reach with the observer alive: once the directory stops changing,
      the observer survives its queue exactly when no `stat` is about to fail, and then the
      index ends equal to a fresh scan. */
  lemma QuietDirectoryConverges<P(!new), C, D(!new)>(pol: Policy<P>, hash: C -> D, listing: seq<P>,
      states: seq<State<P, C, D>>, steps: seq<Step<P, C, D>>, i: nat, now: seq<P>)
    requires Coherent(pol) && Run(pol, hash, states, steps) && Started(pol, states[0], listing) && i < |states|
    requires states[i].alive && Enumerates(now, states[i].files.Keys)
    ensures Drained(pol, states[i]).alive <==> Steady(states[i])
    ensures Steady(states[i]) ==> View(Drained(pol, states[i]).index) == Scan(pol, now)
  {
    EveryRunKeepsInvariant(pol, hash, listing, states, steps, i);
    DrainReachesAgreement(pol, hash, states[i]);
    var s := Drained(pol, states[i]);
    if s.alive {
      assert Pending(s) == [];
      forall p ensures Agrees(pol, s, p) {
        assert PathInvariant(pol, hash, s, p);
      }
      AgreeingIndexIsScan(pol, s, now);
    }
  }
}
