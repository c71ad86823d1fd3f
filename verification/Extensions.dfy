/** Start-up ordering of extensions (backend/extensions/__init__.py).

    Kahn's algorithm over declared dependencies, with the source's own treatment of
    repeated dependencies (multi-edges) and of repeated names (the dictionaries merge
    them, the length test then always rejects the list). */
module Extensions {
  import opened Basics


  datatype Extension = Extension(name: string, dependencies: seq<string>)

  datatype SortError =
    | UnknownDependency(extension: string, dependency: string)
    | CycleDetected(names: seq<string>)

  datatype SortResult = Sorted(order: seq<Extension>) | Failed(error: SortError)

  // ---------------------------------------------------------------- the dependency graph

  function Names(exts: seq<Extension>): set<string> {
    set e | e in exts :: e.name
  }

  predicate UniqueNames(exts: seq<Extension>) {
    forall i, j :: 0 <= i < j < |exts| ==> exts[i].name != exts[j].name
  }

  /** Some extension called `a` lists `b` as a dependency. */
  ghost predicate DependsOn(exts: seq<Extension>, a: string, b: string) {
    exists e :: e in exts && e.name == a && b in e.dependencies
  }

  ghost predicate KnownDependencies(exts: seq<Extension>) {
    forall e, d :: e in exts && d in e.dependencies ==> d in Names(exts)
  }

  /** A walk along dependencies: each name depends on the next one. */
  ghost predicate Chain(exts: seq<Extension>, p: seq<string>) {
    |p| > 0 && forall i, j :: 0 <= i < |p| && 0 <= j < |p| && j == i + 1 ==> DependsOn(exts, p[i], p[j])
  }

  ghost predicate ChainBetween(exts: seq<Extension>, p: seq<string>, from: string, to: string) {
    Chain(exts, p) && p[0] == from && p[|p| - 1] == to
  }

  ghost predicate OnCycle(exts: seq<Extension>, n: string) {
    exists p :: |p| > 1 && ChainBetween(exts, p, n, n)
  }

  ghost predicate Acyclic(exts: seq<Extension>) {
    forall n :: n in Names(exts) ==> !OnCycle(exts, n)
  }

  /** `n` lies on a dependency cycle or depends transitively on one that does. */
  ghost predicate Blocked(exts: seq<Extension>, n: string) {
    exists p, c :: ChainBetween(exts, p, n, c) && OnCycle(exts, c)
  }

  /** Every dependency of a listed name is listed earlier. */
  ghost predicate DependencyOrdered(exts: seq<Extension>, order: seq<string>) {
    forall i, d :: 0 <= i < |order| && DependsOn(exts, order[i], d) ==> d in order[..i]
  }

  ghost predicate DependsInto(exts: seq<Extension>, n: string, s: set<string>) {
    exists d :: d in s && DependsOn(exts, n, d)
  }

  /** Every member of `s` depends on some member of `s`. */
  ghost predicate NoEscape(exts: seq<Extension>, s: set<string>) {
    forall n {:trigger DependsInto(exts, n, s)} :: n in s ==> DependsInto(exts, n, s)
  }

  // ------------------------------------------------- an ordered list holds nothing blocked

  lemma {:induction false} ChainStaysBelow(exts: seq<Extension>, order: seq<string>, i: nat, p: seq<string>, k: nat)
    requires DependencyOrdered(exts, order)
    requires i < |order| && Chain(exts, p) && p[0] == order[i] && 0 < k < |p|
    ensures p[k] in order[..i]
    decreases k
  {
    if k == 1 {
      assert DependsOn(exts, p[0], p[1]);
    } else {
      ChainStaysBelow(exts, order, i, p, k - 1);
      var j :| 0 <= j < i && order[j] == p[k - 1];
      assert DependsOn(exts, p[k - 1], p[k]);
      assert p[k] in order[..j];
    }
  }

  lemma {:induction false} OrderedIsNotOnCycle(exts: seq<Extension>, order: seq<string>, i: nat)
    requires DependencyOrdered(exts, order) && i < |order|
    ensures !OnCycle(exts, order[i])
    decreases i
  {
    if OnCycle(exts, order[i]) {
      var p :| |p| > 1 && ChainBetween(exts, p, order[i], order[i]);
      ChainStaysBelow(exts, order, i, p, |p| - 1);
      var j :| 0 <= j < i && order[j] == order[i];
      OrderedIsNotOnCycle(exts, order, j);
    }
  }

  lemma OrderedIsNotBlocked(exts: seq<Extension>, order: seq<string>, n: string)
    requires DependencyOrdered(exts, order) && n in order
    ensures !Blocked(exts, n)
  {
    if Blocked(exts, n) {
      var p, c :| ChainBetween(exts, p, n, c) && OnCycle(exts, c);
      var i :| 0 <= i < |order| && order[i] == n;
      if |p| > 1 {
        ChainStaysBelow(exts, order, i, p, |p| - 1);
      }
      var j :| 0 <= j < |order| && order[j] == c;
      OrderedIsNotOnCycle(exts, order, j);
    }
  }

  // ----------------------------- a finite set nobody can leave: every member is blocked

  lemma {:induction false} Pigeonhole(s: set<string>, p: seq<string>) returns (i: nat, j: nat)
    requires |p| > |s| && forall k :: 0 <= k < |p| ==> p[k] in s
    ensures i < j < |p| && p[i] == p[j]
    decreases |p|
  {
    var last := |p| - 1;
    if k :| 0 <= k < last && p[k] == p[last] {
      i, j := k, last;
    } else {
      i, j := Pigeonhole(s - {p[last]}, p[..last]);
    }
  }

  lemma {:induction false} WalkInside(exts: seq<Extension>, s: set<string>, n: string, steps: nat) returns (p: seq<string>)
    requires NoEscape(exts, s) && n in s
    ensures |p| == steps + 1 && p[0] == n && Chain(exts, p)
    ensures forall k :: 0 <= k < |p| ==> p[k] in s
    decreases steps
  {
    if steps == 0 {
      p := [n];
    } else {
      assert DependsInto(exts, n, s);
      var d :| d in s && DependsOn(exts, n, d);
      var rest := WalkInside(exts, s, d, steps - 1);
      p := [n] + rest;
    }
  }

  lemma NoEscapeIsBlocked(exts: seq<Extension>, s: set<string>, n: string)
    requires NoEscape(exts, s) && n in s
    ensures Blocked(exts, n)
  {
    var p := WalkInside(exts, s, n, |s|);
    var i, j := Pigeonhole(s, p);
    var loop := p[i..j + 1];
    assert forall k :: 0 <= k < |loop| ==> loop[k] == p[i + k];
    assert ChainBetween(exts, loop, p[i], p[i]);
    assert ChainBetween(exts, p[..i + 1], n, p[i]);
  }

  // ------------------------------------------------------------- counting dependency edges

  datatype Edge = Edge(from: string, to: string)

  /** Edges into `n` whose source is not yet done, with multiplicity. */
  ghost function Waiting(edges: seq<Edge>, n: string, done: set<string>): nat {
    if edges == [] then 0
    else
      var e := edges[|edges| - 1];
      Waiting(edges[..|edges| - 1], n, done) + if e.to == n && e.from !in done then 1 else 0
  }

  ghost function Targets(edges: seq<Edge>, d: string): seq<string> {
    if edges == [] then []
    else
      var e := edges[|edges| - 1];
      Targets(edges[..|edges| - 1], d) + if e.from == d then [e.to] else []
  }

  ghost function Occurrences(s: seq<string>, n: string): nat {
    if s == [] then 0
    else Occurrences(s[..|s| - 1], n) + if s[|s| - 1] == n then 1 else 0
  }

  lemma {:induction false} FinishingReleases(edges: seq<Edge>, d: string, n: string, done: set<string>)
    requires d !in done
    ensures Waiting(edges, n, done) == Waiting(edges, n, done + {d}) + Occurrences(Targets(edges, d), n)
    decreases |edges|
  {
    if edges != [] {
      var m := |edges| - 1;
      FinishingReleases(edges[..m], d, n, done);
      var t := Targets(edges[..m], d);
      assert (t + [edges[m].to])[..|t|] == t;
      if edges[m].from == d {
        assert Targets(edges, d) == t + [edges[m].to];
        assert Occurrences(t + [edges[m].to], n) == Occurrences(t, n) + if edges[m].to == n then 1 else 0;
      } else {
        assert Targets(edges, d) == t;
      }
    }
  }

  lemma {:induction false} OccurrencesMonotone(s: seq<string>, k: nat, n: string)
    requires k <= |s|
    ensures Occurrences(s[..k], n) <= Occurrences(s, n)
    decreases |s|
  {
    if k == |s| {
      assert s[..k] == s;
    } else {
      OccurrencesMonotone(s[..|s| - 1], k, n);
      assert s[..|s| - 1][..k] == s[..k];
    }
  }

  lemma {:induction false} WaitingZero(edges: seq<Edge>, n: string, done: set<string>)
    ensures Waiting(edges, n, done) == 0 <==> forall e :: e in edges && e.to == n ==> e.from in done
    decreases |edges|
  {
    if edges != [] {
      var m := |edges| - 1;
      WaitingZero(edges[..m], n, done);
      assert edges == edges[..m] + [edges[m]];
    }
  }

  /** Targets are exactly the heads of the edges that leave `d`. */
  lemma {:induction false} TargetsAreHeads(edges: seq<Edge>, d: string, n: string)
    ensures n in Targets(edges, d) <==> Edge(d, n) in edges
    decreases |edges|
  {
    if edges != [] {
      var m := |edges| - 1;
      TargetsAreHeads(edges[..m], d, n);
      assert edges == edges[..m] + [edges[m]];
    }
  }

  // --------------------------------------------------------------------- distinct names

  /** The keys of `{e.name: ... for e in extensions}`, in dictionary order. */
  function DistinctNames(exts: seq<Extension>): (ks: seq<string>)
    ensures forall n :: n in ks <==> n in Names(exts)
    ensures forall i, j :: 0 <= i < j < |ks| ==> ks[i] != ks[j]
    ensures |ks| <= |exts| && (|ks| == |exts| <==> UniqueNames(exts))
  {
    if exts == [] then []
    else
      var m := |exts| - 1;
      assert exts == exts[..m] + [exts[m]];
      assert Names(exts) == Names(exts[..m]) + {exts[m].name};
      var before := DistinctNames(exts[..m]);
      if exts[m].name in before then
        assert exists i :: 0 <= i < m && exts[i].name == exts[m].name;
        before
      else before + [exts[m].name]
  }

  function Where(keys: seq<string>, keep: set<string>): (r: seq<string>)
    ensures forall n :: n in r <==> n in keys && n in keep
    ensures (forall i, j :: 0 <= i < j < |keys| ==> keys[i] != keys[j]) ==>
              forall i, j :: 0 <= i < j < |r| ==> r[i] != r[j]
  {
    if keys == [] then []
    else
      var m := |keys| - 1;
      Where(keys[..m], keep) + if keys[m] in keep then [keys[m]] else []
  }

  ghost function BlockedNames(exts: seq<Extension>): set<string> {
    set n | n in Names(exts) && Blocked(exts, n)
  }

  lemma {:induction false} DistinctCount<T>(s: seq<T>, x: T)
    requires AllDistinct(s)
    ensures multiset(s)[x] == if x in s then 1 else 0
    decreases |s|
  {
    if s != [] {
      DistinctCount(s[1..], x);
      assert s == [s[0]] + s[1..];
    }
  }

  lemma DistinctSameElements<T>(s: seq<T>, t: seq<T>)
    requires AllDistinct(s) && AllDistinct(t) && forall x :: x in s <==> x in t
    ensures multiset(s) == multiset(t)
  {
    forall x ensures multiset(s)[x] == multiset(t)[x] {
      DistinctCount(s, x);
      DistinctCount(t, x);
    }
  }

  lemma {:induction false} DistinctCardinality<T>(s: seq<T>)
    requires AllDistinct(s)
    ensures |set x | x in s| == |s|
    decreases |s|
  {
    if s != [] {
      DistinctCardinality(s[1..]);
      assert (set x | x in s) == {s[0]} + set x | x in s[1..];
    }
  }

  // ------------------------------------------------------------------------ the algorithm

  /** The dependency at position `j` of extension `i` is the first unknown one met. */
  ghost predicate FirstUnknownAt(exts: seq<Extension>, i: nat, j: nat) {
    && i < |exts| && j < |exts[i].dependencies|
    && exts[i].dependencies[j] !in Names(exts)
    && (forall a, d :: 0 <= a < i && d in exts[a].dependencies ==> d in Names(exts))
    && (forall d :: d in exts[i].dependencies[..j] ==> d in Names(exts))
  }

  /** Edges recorded after the dependencies of `exts[..i]` and the first `j` of `exts[i]`. */
  ghost predicate Recorded(exts: seq<Extension>, i: nat, j: nat, e: Edge) {
    || (exists a :: 0 <= a < i <= |exts| && exts[a].name == e.to && e.from in exts[a].dependencies)
    || (i < |exts| && j <= |exts[i].dependencies| && exts[i].name == e.to && e.from in exts[i].dependencies[..j])
  }

  /** The dictionaries describe exactly the edge list. */
  ghost predicate Tables(names: set<string>, edges: seq<Edge>, inDegree: map<string, int>, adj: map<string, seq<string>>) {
    && inDegree.Keys == names && adj.Keys == names
    && (forall n :: n in names ==> inDegree[n] == Waiting(edges, n, {}))
    && (forall n :: n in names ==> adj[n] == Targets(edges, n))
  }

  lemma RecordEdge(names: set<string>, edges: seq<Edge>, inDegree: map<string, int>, adj: map<string, seq<string>>, d: string, n: string)
    requires Tables(names, edges, inDegree, adj) && d in names && n in names
    ensures Tables(names, edges + [Edge(d, n)], inDegree[n := inDegree[n] + 1], adj[d := adj[d] + [n]])
  {
    var e := edges + [Edge(d, n)];
    assert e[..|e| - 1] == edges;
  }

  ghost predicate RecordedExactly(exts: seq<Extension>, i: nat, j: nat, edges: seq<Edge>) {
    forall e :: e in edges <==> Recorded(exts, i, j, e)
  }

  ghost predicate KnownUpTo(exts: seq<Extension>, i: nat) {
    forall a, d :: 0 <= a < i <= |exts| && d in exts[a].dependencies ==> d in Names(exts)
  }

  ghost predicate EdgesOf(exts: seq<Extension>, edges: seq<Edge>) {
    forall a, d :: Edge(d, a) in edges <==> DependsOn(exts, a, d)
  }

  /** Records the dependencies of `exts[i]`, stopping at the first unknown one. */
  method RecordExtension(exts: seq<Extension>, i: nat, inDegree0: map<string, int>, adj0: map<string, seq<string>>, ghost edges0: seq<Edge>)
    returns (unknown: bool, j: nat, inDegree: map<string, int>, adj: map<string, seq<string>>, ghost edges: seq<Edge>)
    requires i < |exts| && KnownUpTo(exts, i) && RecordedExactly(exts, i, 0, edges0)
    requires Tables(Names(exts), edges0, inDegree0, adj0)
    ensures unknown ==> FirstUnknownAt(exts, i, j)
    ensures !unknown ==> KnownUpTo(exts, i + 1) && RecordedExactly(exts, i + 1, 0, edges)
    ensures !unknown ==> Tables(Names(exts), edges, inDegree, adj)
  {
    var names := Names(exts);
    var ext := exts[i];
    assert ext in exts && ext.name in names;
    unknown, j, inDegree, adj, edges := false, 0, inDegree0, adj0, edges0;
    while j < |ext.dependencies|
      invariant j <= |ext.dependencies|
      invariant Tables(names, edges, inDegree, adj)
      invariant forall d :: d in ext.dependencies[..j] ==> d in names
      invariant RecordedExactly(exts, i, j, edges)
    {
      var dep := ext.dependencies[j];
      if dep !in names {
        unknown := true;
        return;
      }
      RecordEdge(names, edges, inDegree, adj, dep, ext.name);
      RecordedStep(exts, i, j, edges);
      KnownStep(names, ext.dependencies, j);
      adj := adj[dep := adj[dep] + [ext.name]];
      inDegree := inDegree[ext.name := inDegree[ext.name] + 1];
      edges := edges + [Edge(dep, ext.name)];
      j := j + 1;
    }
    RecordedNext(exts, i, edges);
  }

  method BuildGraph(exts: seq<Extension>)
    returns (unknown: bool, i: nat, j: nat, inDegree: map<string, int>, adj: map<string, seq<string>>, ghost edges: seq<Edge>)
    ensures unknown ==> FirstUnknownAt(exts, i, j)
    ensures !unknown ==> KnownDependencies(exts) && Tables(Names(exts), edges, inDegree, adj) && EdgesOf(exts, edges)
  {
    unknown, i, j, edges := false, 0, 0, [];
    inDegree := map n | n in Names(exts) :: 0;
    adj := map n | n in Names(exts) :: [];
    while i < |exts|
      invariant i <= |exts| && !unknown
      invariant Tables(Names(exts), edges, inDegree, adj)
      invariant KnownUpTo(exts, i) && RecordedExactly(exts, i, 0, edges)
    {
      unknown, j, inDegree, adj, edges := RecordExtension(exts, i, inDegree, adj, edges);
      if unknown {
        return;
      }
      i := i + 1;
    }
    forall a, d ensures Edge(d, a) in edges <==> DependsOn(exts, a, d) {
      assert Edge(d, a) in edges <==> Recorded(exts, |exts|, 0, Edge(d, a));
    }
  }

  lemma KnownStep(names: set<string>, dependencies: seq<string>, j: nat)
    requires j < |dependencies| && dependencies[j] in names
    requires forall d :: d in dependencies[..j] ==> d in names
    ensures forall d :: d in dependencies[..j + 1] ==> d in names
  {
    assert dependencies[..j + 1] == dependencies[..j] + [dependencies[j]];
  }

  lemma RecordedStep(exts: seq<Extension>, i: nat, j: nat, edges: seq<Edge>)
    requires i < |exts| && j < |exts[i].dependencies|
    requires RecordedExactly(exts, i, j, edges)
    ensures RecordedExactly(exts, i, j + 1, edges + [Edge(exts[i].dependencies[j], exts[i].name)])
  {
    var ds := exts[i].dependencies;
    assert ds[..j + 1] == ds[..j] + [ds[j]];
    forall e ensures Recorded(exts, i, j + 1, e) <==> Recorded(exts, i, j, e) || e == Edge(ds[j], exts[i].name) {}
  }

  lemma RecordedNext(exts: seq<Extension>, i: nat, edges: seq<Edge>)
    requires i < |exts|
    requires RecordedExactly(exts, i, |exts[i].dependencies|, edges)
    ensures RecordedExactly(exts, i + 1, 0, edges)
  {
    var ds := exts[i].dependencies;
    assert ds[..|ds|] == ds;
    forall e ensures Recorded(exts, i + 1, 0, e) <==> Recorded(exts, i, |ds|, e) {
      if i + 1 < |exts| {
        assert exts[i + 1].dependencies[..0] == [];
      }
    }
  }

  /** One popped name releases its dependents: in-degrees drop with multiplicity and
      exactly the names that reach zero join the queue, once each. */
  method Release(targets: seq<string>, before: map<string, int>, pending: seq<string>)
    returns (inDegree: map<string, int>, queue: seq<string>)
    requires forall n :: n in targets ==> n in before
    requires forall n :: n in before ==> Occurrences(targets, n) <= before[n]
    requires AllDistinct(pending) && forall n :: n in pending ==> n in before && before[n] == 0
    ensures inDegree.Keys == before.Keys
    ensures forall n :: n in before ==> inDegree[n] == before[n] - Occurrences(targets, n)
    ensures AllDistinct(queue)
    ensures forall n :: n in queue <==> n in pending || (n in before && before[n] > 0 && inDegree[n] == 0)
  {
    inDegree, queue := before, pending;
    for k := 0 to |targets|
      invariant inDegree.Keys == before.Keys
      invariant forall n :: n in before ==> inDegree[n] == before[n] - Occurrences(targets[..k], n)
      invariant AllDistinct(queue)
      invariant forall n :: n in queue <==> n in pending || (n in before && before[n] > 0 && inDegree[n] == 0)
    {
      var n := targets[k];
      assert targets[..k + 1][..k] == targets[..k];
      OccurrencesMonotone(targets, k + 1, n);
      inDegree := inDegree[n := inDegree[n] - 1];
      if inDegree[n] == 0 {
        queue := queue + [n];
      }
    }
    assert targets[..|targets|] == targets;
  }

  /** What holds each time Kahn's loop tests its queue. */
  ghost predicate KahnInvariant(exts: seq<Extension>, edges: seq<Edge>, inDegree: map<string, int>, done: seq<string>, queue: seq<string>) {
    && AllDistinct(done) && AllDistinct(queue)
    && (forall n :: n in done ==> n !in queue)
    && inDegree.Keys == Names(exts)
    && (forall n :: n in Names(exts) ==> inDegree[n] == Waiting(edges, n, Elements(done)))
    && (forall n :: n in done || n in queue <==> n in Names(exts) && inDegree[n] == 0)
    && DependencyOrdered(exts, done)
  }

  lemma KahnStep(exts: seq<Extension>, edges: seq<Edge>, inDegree: map<string, int>, done: seq<string>, queue: seq<string>,
                 inDegree': map<string, int>, queue': seq<string>)
    requires EdgesOf(exts, edges) && KnownDependencies(exts) && queue != []
    requires KahnInvariant(exts, edges, inDegree, done, queue)
    requires inDegree'.Keys == inDegree.Keys && AllDistinct(queue')
    requires forall n :: n in inDegree ==> inDegree'[n] == inDegree[n] - Occurrences(Targets(edges, queue[0]), n)
    requires forall n :: n in queue' <==> n in queue[1..] || (n in inDegree && inDegree[n] > 0 && inDegree'[n] == 0)
    ensures KahnInvariant(exts, edges, inDegree', done + [queue[0]], queue')
  {
    var name := queue[0];
    var done' := done + [name];
    assert Elements(done') == Elements(done) + {name};
    assert queue == [name] + queue[1..];
    forall n | n in Names(exts) ensures inDegree'[n] == Waiting(edges, n, Elements(done')) {
      FinishingReleases(edges, name, n, Elements(done));
    }
    forall n | n in Names(exts) && inDegree[n] == 0 ensures inDegree'[n] == 0 {
      FinishingReleases(edges, name, n, Elements(done));
    }
    forall i, d | 0 <= i < |done'| && DependsOn(exts, done'[i], d) ensures d in done'[..i] {
      if i == |done| {
        WaitingZero(edges, name, Elements(done));
        assert Edge(d, name) in edges;
        assert done'[..i] == done;
      } else {
        assert done'[..i] == done[..i];
      }
    }
  }

  lemma KahnEnd(exts: seq<Extension>, edges: seq<Edge>, inDegree: map<string, int>, done: seq<string>)
    requires EdgesOf(exts, edges) && KnownDependencies(exts)
    requires KahnInvariant(exts, edges, inDegree, done, [])
    ensures forall n :: n in Names(exts) ==> (n in done <==> !Blocked(exts, n))
    ensures (set n | n in Names(exts) && inDegree[n] > 0) == BlockedNames(exts)
  {
    var stuck := Names(exts) - Elements(done);
    forall n | n in stuck ensures DependsInto(exts, n, stuck) {
      WaitingZero(edges, n, Elements(done));
      var e :| e in edges && e.to == n && e.from !in Elements(done);
      assert Edge(e.from, n) in edges;
      assert DependsOn(exts, n, e.from);
    }
    forall n | n in Names(exts) ensures n in done <==> !Blocked(exts, n) {
      if n in done {
        OrderedIsNotBlocked(exts, done, n);
      } else {
        NoEscapeIsBlocked(exts, stuck, n);
      }
    }
  }

  /** On a cycle means blocked, and a blocked name forces some cycle among the names. */
  lemma NobodyBlockedIffAcyclic(exts: seq<Extension>)
    requires KnownDependencies(exts)
    ensures BlockedNames(exts) == {} <==> Acyclic(exts)
  {
    if n :| n in Names(exts) && OnCycle(exts, n) {
      assert ChainBetween(exts, [n], n, n);
      assert n in BlockedNames(exts);
    }
    if n :| n in BlockedNames(exts) {
      var p, c :| ChainBetween(exts, p, n, c) && OnCycle(exts, c);
      var q :| |q| > 1 && ChainBetween(exts, q, c, c);
      assert DependsOn(exts, q[0], q[1]);
      assert c in Names(exts);
    }
  }

  /** The index of the last extension that carries a name, as a dictionary keeps it. */
  method ByName(exts: seq<Extension>) returns (byName: map<string, Extension>)
    ensures byName.Keys == Names(exts)
    ensures forall n :: n in byName ==> byName[n] in exts && byName[n].name == n
  {
    byName := map[];
    for i := 0 to |exts|
      invariant byName.Keys == Names(exts[..i])
      invariant forall n :: n in byName ==> byName[n] in exts && byName[n].name == n
    {
      assert exts[..i + 1] == exts[..i] + [exts[i]];
      byName := byName[exts[i].name := exts[i]];
    }
    assert exts[..|exts|] == exts;
  }

  ghost predicate ListedBefore(order: seq<Extension>, i: nat, d: string) {
    exists j :: 0 <= j < i <= |order| && order[j].name == d
  }

  /** Pops one name and releases its dependents. */
  method PopOne(exts: seq<Extension>, inDegree0: map<string, int>, adj: map<string, seq<string>>, queue0: seq<string>,
                ghost edges: seq<Edge>, ghost done: seq<string>)
    returns (name: string, inDegree: map<string, int>, queue: seq<string>)
    requires KnownDependencies(exts) && EdgesOf(exts, edges) && queue0 != []
    requires adj.Keys == Names(exts) && forall n :: n in adj ==> adj[n] == Targets(edges, n)
    requires KahnInvariant(exts, edges, inDegree0, done, queue0)
    ensures name == queue0[0] && name in Names(exts) && name !in done
    ensures KahnInvariant(exts, edges, inDegree, done + [name], queue)
  {
    name := queue0[0];
    ReleaseReady(exts, edges, inDegree0, done, queue0);
    inDegree, queue := Release(adj[name], inDegree0, queue0[1..]);
    KahnStep(exts, edges, inDegree0, done, queue0, inDegree, queue);
  }

  ghost predicate Mirrors(byName: map<string, Extension>, done: seq<string>, result: seq<Extension>) {
    |result| == |done| && forall k :: 0 <= k < |done| ==> done[k] in byName && result[k] == byName[done[k]]
  }

  lemma Advance(exts: seq<Extension>, byName: map<string, Extension>, done: seq<string>, result: seq<Extension>, name: string)
    requires Mirrors(byName, done, result) && name in byName && name in Names(exts) && name !in done
    ensures Mirrors(byName, done + [name], result + [byName[name]])
    ensures Names(exts) - Elements(done + [name]) < Names(exts) - Elements(done)
  {
    assert Elements(done + [name]) == Elements(done) + {name};
    assert name in Names(exts) - Elements(done);
  }

  /** The queue loop. */
  method RunKahn(exts: seq<Extension>, byName: map<string, Extension>, inDegree0: map<string, int>, adj: map<string, seq<string>>, ghost edges: seq<Edge>)
    returns (result: seq<Extension>, inDegree: map<string, int>, ghost done: seq<string>)
    requires KnownDependencies(exts) && EdgesOf(exts, edges) && Tables(Names(exts), edges, inDegree0, adj)
    requires byName.Keys == Names(exts)
    ensures KahnInvariant(exts, edges, inDegree, done, [])
    ensures Mirrors(byName, done, result)
  {
    inDegree, result, done := inDegree0, [], [];
    var queue := Where(DistinctNames(exts), set n | n in inDegree && inDegree[n] == 0);
    KahnStart(exts, edges, inDegree, queue);
    while queue != []
      invariant KahnInvariant(exts, edges, inDegree, done, queue)
      invariant Mirrors(byName, done, result)
      decreases Names(exts) - Elements(done)
    {
      var name;
      name, inDegree, queue := PopOne(exts, inDegree, adj, queue, edges, done);
      Advance(exts, byName, done, result, name);
      result := result + [byName[name]];
      done := done + [name];
    }
  }

  lemma KahnStart(exts: seq<Extension>, edges: seq<Edge>, inDegree: map<string, int>, queue: seq<string>)
    requires inDegree.Keys == Names(exts) && forall n :: n in Names(exts) ==> inDegree[n] == Waiting(edges, n, {})
    requires queue == Where(DistinctNames(exts), set n | n in inDegree && inDegree[n] == 0)
    ensures KahnInvariant(exts, edges, inDegree, [], queue)
  {
    assert Elements([]) == {};
  }

  lemma ReleaseReady(exts: seq<Extension>, edges: seq<Edge>, inDegree: map<string, int>, done: seq<string>, queue: seq<string>)
    requires EdgesOf(exts, edges) && queue != [] && KahnInvariant(exts, edges, inDegree, done, queue)
    ensures queue[0] in Names(exts) && queue[0] !in done
    ensures forall n :: n in inDegree ==> Occurrences(Targets(edges, queue[0]), n) <= inDegree[n]
    ensures forall n :: n in Targets(edges, queue[0]) ==> n in inDegree
    ensures AllDistinct(queue[1..]) && forall n :: n in queue[1..] ==> n in inDegree && inDegree[n] == 0
  {
    var name := queue[0];
    assert name in queue;
    forall n | n in inDegree ensures Occurrences(Targets(edges, name), n) <= inDegree[n] {
      FinishingReleases(edges, name, n, Elements(done));
    }
    forall n | n in Targets(edges, name) ensures n in inDegree {
      TargetsAreHeads(edges, name, n);
      assert DependsOn(exts, n, name);
    }
  }

  /** `_topological_sort`. */
  method TopologicalSort(exts: seq<Extension>) returns (r: SortResult)
    ensures r.Failed? && r.error.UnknownDependency? <==> !KnownDependencies(exts)
    ensures r.Failed? && r.error.UnknownDependency? ==>
              exists i: nat, j: nat :: FirstUnknownAt(exts, i, j)
                && r.error == UnknownDependency(exts[i].name, exts[i].dependencies[j])
    ensures r.Sorted? <==> KnownDependencies(exts) && UniqueNames(exts) && Acyclic(exts)
    ensures r.Sorted? ==> multiset(r.order) == multiset(exts)
    ensures r.Sorted? ==> DependenciesFirst(r.order)
    ensures r.Failed? && r.error.CycleDetected? ==> r.error.names == Where(DistinctNames(exts), BlockedNames(exts))
  {
    var byName := ByName(exts);
    var unknown, i, j, inDegree, adj, edges := BuildGraph(exts);
    if unknown {
      UnknownBreaksKnown(exts, i, j);
      return Failed(UnknownDependency(exts[i].name, exts[i].dependencies[j]));
    }
    var result, left, done := RunKahn(exts, byName, inDegree, adj, edges);
    Outcome(exts, edges, left, done);
    if |result| != |exts| {
      r := Failed(CycleDetected(Where(DistinctNames(exts), set n | n in left && left[n] > 0)));
    } else {
      AllDone(exts, byName, done, result);
      r := Sorted(result);
    }
  }

  lemma UnknownBreaksKnown(exts: seq<Extension>, i: nat, j: nat)
    requires FirstUnknownAt(exts, i, j)
    ensures !KnownDependencies(exts)
  {
    assert exts[i] in exts && exts[i].dependencies[j] in exts[i].dependencies;
  }

  lemma Outcome(exts: seq<Extension>, edges: seq<Edge>, inDegree: map<string, int>, done: seq<string>)
    requires EdgesOf(exts, edges) && KnownDependencies(exts)
    requires KahnInvariant(exts, edges, inDegree, done, [])
    ensures |done| == |exts| <==> UniqueNames(exts) && Acyclic(exts)
    ensures |done| == |exts| ==> Elements(done) == Names(exts)
    ensures (set n | n in inDegree && inDegree[n] > 0) == BlockedNames(exts)
  {
    KahnEnd(exts, edges, inDegree, done);
    NobodyBlockedIffAcyclic(exts);
    DoneCount(exts, done);
    assert (set n | n in inDegree && inDegree[n] > 0) == set n | n in Names(exts) && inDegree[n] > 0;
    if BlockedNames(exts) == {} {
      forall n | n in Names(exts) ensures n in done {
        assert n !in BlockedNames(exts);
      }
      assert Elements(done) == Names(exts);
    } else {
      var n :| n in BlockedNames(exts);
      assert n !in Elements(done);
    }
  }

  /** The length test: the result is full exactly when names are unique and none is left. */
  lemma DoneCount(exts: seq<Extension>, done: seq<string>)
    requires AllDistinct(done) && forall n :: n in done ==> n in Names(exts)
    ensures |done| == |exts| <==> UniqueNames(exts) && Elements(done) == Names(exts)
    ensures |done| <= |exts|
  {
    var keys := DistinctNames(exts);
    DistinctCardinality(done);
    DistinctCardinality(keys);
    assert Names(exts) == Elements(keys);
    assert Elements(done) <= Elements(keys);
    SubsetSize(Elements(done), Elements(keys));
  }

  lemma {:induction false} SubsetSize(a: set<string>, b: set<string>)
    requires a <= b
    ensures |a| <= |b| && (|a| == |b| <==> a == b)
    decreases |b|
  {
    assert b == a + (b - a);
    assert |b| == |a| + |b - a|;
  }

  lemma AllDone(exts: seq<Extension>, byName: map<string, Extension>, done: seq<string>, result: seq<Extension>)
    requires UniqueNames(exts) && Elements(done) == Names(exts) && AllDistinct(done)
    requires DependencyOrdered(exts, done)
    requires byName.Keys == Names(exts) && forall n :: n in byName ==> byName[n] in exts && byName[n].name == n
    requires Mirrors(byName, done, result)
    ensures multiset(result) == multiset(exts)
    ensures DependenciesFirst(result)
  {
    forall e | e in exts ensures e in result {
      assert e.name in Elements(done);
      var k :| 0 <= k < |done| && done[k] == e.name;
      assert result[k].name == e.name;
    }
    DistinctSameElements(result, exts);
    forall i, d | 0 <= i < |result| && d in result[i].dependencies ensures ListedBefore(result, i, d) {
      assert DependsOn(exts, done[i], d);
      var j :| 0 <= j < i && done[j] == d;
      assert result[j].name == d;
    }
  }

  // ------------------------------------------------------------------------- the registry

  ghost predicate DependenciesFirst(order: seq<Extension>) {
    forall i, d :: 0 <= i < |order| && d in order[i].dependencies ==> ListedBefore(order, i, d)
  }

  /** `init_all`: runs down the order and stops at the first extension that raises. */
  method InitAll(order: seq<Extension>, raising: set<string>) returns (started: seq<string>, raised: bool)
    requires DependenciesFirst(order)
    ensures |started| <= |order| && forall k :: 0 <= k < |started| ==> started[k] == order[k].name
    ensures forall k :: 0 <= k < |started| ==> order[k].name !in raising
    ensures raised <==> |started| < |order|
    ensures raised ==> order[|started|].name in raising
    ensures forall k, d :: 0 <= k < |started| && d in order[k].dependencies ==> d in started[..k]
  {
    started, raised := [], false;
    while |started| < |order|
      invariant |started| <= |order| && forall k :: 0 <= k < |started| ==> started[k] == order[k].name && order[k].name !in raising
      decreases |order| - |started|
    {
      var ext := order[|started|];
      if ext.name in raising {
        raised := true;
        break;
      }
      started := started + [ext.name];
    }
    forall k, d | 0 <= k < |started| && d in order[k].dependencies ensures d in started[..k] {
      assert ListedBefore(order, k, d);
      var j :| 0 <= j < k && order[j].name == d;
      assert started[..k][j] == d;
    }
  }

  /** `teardown_all`: visits every extension in reverse, whatever each one raises. */
  method TeardownAll(order: seq<Extension>, raising: set<string>) returns (visited: seq<string>)
    ensures |visited| == |order| && forall k :: 0 <= k < |order| ==> visited[k] == order[|order| - 1 - k].name
  {
    visited := [];
    var i := |order|;
    while i > 0
      invariant 0 <= i <= |order| && |visited| == |order| - i
      invariant forall k :: 0 <= k < |visited| ==> visited[k] == order[|order| - 1 - k].name
    {
      i := i - 1;
      visited := visited + [order[i].name];
      if order[i].name in raising {
        // the exception is swallowed and the loop goes on
      }
    }
  }

  /** Tearing a sorted list down reaches every dependent before what it depends on. */
  lemma TeardownReachesDependentsFirst(order: seq<Extension>, visited: seq<string>, a: nat, b: nat)
    requires DependenciesFirst(order) && UniqueNames(order)
    requires |visited| == |order| && forall k :: 0 <= k < |order| ==> visited[k] == order[|order| - 1 - k].name
    requires a < |visited| && b < |visited| && DependsOn(order, visited[a], visited[b])
    ensures a < b
  {
    var e :| e in order && e.name == visited[a] && visited[b] in e.dependencies;
    var i :| 0 <= i < |order| && order[i] == e;
    assert i == |order| - 1 - a;
    assert ListedBefore(order, i, visited[b]);
  }
}
