/** API-key usage counters (backend/auth/api_keys.py, lines 98-198; backend/models/api_key.py).

    A call of `_increment` is two steps, a lookup and a write with commit; `delete_key` is three,
    finding the key, loading its rows and the commit. Sessions interleave them freely. */
module KeyStats {
  import opened Basics
  import opened TextOrder

  /** What a counter counts. */
  datatype Counter = Counter(key: string, package: string, event: string)

  datatype Stat = Stat(id: nat, counter: Counter, count: nat)

  datatype Backend = SQLite | PostgreSQL

  /** `api_keys` by id, and `api_key_stats` with its unique index and its cascading foreign key.
      `nextId` is the sequence a PostgreSQL table draws its ids from. */
  datatype Database = Database(backend: Backend, keys: set<string>, stats: seq<Stat>, nextId: nat)

  predicate UniqueRows(stats: seq<Stat>) {
    forall i, j :: 0 <= i < j < |stats| ==> stats[i].id != stats[j].id && stats[i].counter != stats[j].counter
  }

  /** The constraints the schema declares. */
  predicate Sound(db: Database) {
    && UniqueRows(db.stats)
    && (forall s :: s in db.stats ==> s.counter.key in db.keys && (db.backend.PostgreSQL? ==> s.id < db.nextId))
  }

  function MaxId(stats: seq<Stat>): (m: nat)
    ensures forall s :: s in stats ==> s.id <= m
  {
    if stats == [] then 0
    else
      var rest := MaxId(stats[1..]);
      assert stats == [stats[0]] + stats[1..];
      if stats[0].id > rest then stats[0].id else rest
  }

  /** The id of the next row: one above the largest there is on SQLite, where the column is a plain
      rowid, so the id of a deleted last row is given out again; a fresh one on PostgreSQL. */
  function NewId(db: Database): nat {
    if db.backend.SQLite? then MaxId(db.stats) + 1 else db.nextId
  }

  // ------------------------------------------------------------------------- row operations

  /** `query(...).filter(...).first()`: the id of the counter's row. */
  function FindRow(stats: seq<Stat>, c: Counter): (r: Option<nat>)
    ensures r.Some? ==> exists s :: s in stats && s.counter == c && s.id == r.value
    ensures r.None? <==> forall s :: s in stats ==> s.counter != c
  {
    if stats == [] then None
    else if stats[0].counter == c then Some(stats[0].id)
    else FindRow(stats[1..], c)
  }

  /** `UPDATE ... SET count = count + 1 WHERE id = ...` */
  function Bump(stats: seq<Stat>, id: nat): seq<Stat> {
    if stats == [] then []
    else if stats[0].id == id then [stats[0].(count := stats[0].count + 1)] + stats[1..]
    else [stats[0]] + Bump(stats[1..], id)
  }

  /** `delete_key` at its commit: each row it had loaded goes by its id, then the key, and with the
      key by `ON DELETE CASCADE` whatever else is the key's. */
  function WithoutRows(stats: seq<Stat>, key: string, ids: set<nat>): seq<Stat> {
    if stats == [] then []
    else (if stats[0].counter.key != key && stats[0].id !in ids then [stats[0]] else []) + WithoutRows(stats[1..], key, ids)
  }

  function IdsOf(stats: seq<Stat>, key: string): set<nat> {
    set s | s in stats && s.counter.key == key :: s.id
  }

  datatype Outcome = Returned | Raised

  /** The write and commit of one call, given what its lookup found. A row that has gone, a key
      that has gone and a row inserted meanwhile all raise, and the transaction is rolled back. */
  function Commit(db: Database, c: Counter, found: Option<nat>): (Database, Outcome) {
    match found
    case Some(id) =>
      if exists s :: s in db.stats && s.id == id then (db.(stats := Bump(db.stats, id)), Returned) else (db, Raised)
    case None =>
      if c.key !in db.keys || FindRow(db.stats, c).Some? then (db, Raised)
      else (db.(stats := db.stats + [Stat(NewId(db), c, 1)], nextId := db.nextId + 1), Returned)
  }

  // --------------------------------------------------------------------------------- sums

  /** The counts of all rows whose counter satisfies `p`. */
  function Sum(stats: seq<Stat>, p: Counter -> bool): nat {
    if stats == [] then 0 else (if p(stats[0].counter) then stats[0].count else 0) + Sum(stats[1..], p)
  }

  function Count(log: seq<Counter>, p: Counter -> bool): nat {
    if log == [] then 0 else Count(log[..|log| - 1], p) + if p(log[|log| - 1]) then 1 else 0
  }

  lemma {:induction false} SumAppend(a: seq<Stat>, s: Stat, p: Counter -> bool)
    ensures Sum(a + [s], p) == Sum(a, p) + if p(s.counter) then s.count else 0
    decreases |a|
  {
    if a != [] {
      assert (a + [s])[1..] == a[1..] + [s];
      SumAppend(a[1..], s, p);
    }
  }

  lemma {:induction false} SumBump(stats: seq<Stat>, id: nat, c: Counter, p: Counter -> bool)
    requires UniqueRows(stats) && exists s :: s in stats && s.id == id && s.counter == c
    ensures Sum(Bump(stats, id), p) == Sum(stats, p) + if p(c) then 1 else 0
    decreases |stats|
  {
    var i :| 0 <= i < |stats| && stats[i].id == id && stats[i].counter == c;
    if stats[0].id == id {
      assert i == 0;
      assert Bump(stats, id)[1..] == stats[1..];
    } else {
      assert stats[1..][i - 1].id == id;
      SumBump(stats[1..], id, c, p);
      assert Bump(stats, id)[1..] == Bump(stats[1..], id);
    }
  }

  lemma {:induction false} SumWithoutRows(stats: seq<Stat>, key: string, ids: set<nat>, p: Counter -> bool)
    requires forall c :: p(c) ==> c.key != key
    requires forall s :: s in stats && s.id in ids && s.counter.key != key ==> s.count == 0
    ensures Sum(WithoutRows(stats, key, ids), p) == Sum(stats, p)
    decreases |stats|
  {
    if stats != [] {
      var rest := WithoutRows(stats[1..], key, ids);
      SumWithoutRows(stats[1..], key, ids, p);
      if stats[0].counter.key != key && stats[0].id !in ids {
        assert WithoutRows(stats, key, ids)[1..] == rest;
      } else {
        assert WithoutRows(stats, key, ids) == rest;
        assert stats[0] in stats;
      }
    }
  }

  lemma {:induction false} SumOnly(stats: seq<Stat>, c: Counter)
    requires UniqueRows(stats)
    ensures forall s :: s in stats && s.counter == c ==> Sum(stats, Only(c)) == s.count
    ensures (forall s :: s in stats ==> s.counter != c) ==> Sum(stats, Only(c)) == 0
    decreases |stats|
  {
    if stats != [] {
      SumOnly(stats[1..], c);
      assert stats == [stats[0]] + stats[1..];
      if stats[0].counter == c {
        forall s | s in stats[1..] ensures s.counter != c {
          var i :| 0 <= i < |stats[1..]| && stats[1..][i] == s;
          assert stats[i + 1] == s;
        }
      }
    }
  }

  // -------------------------------------------------------------- the constraints are kept

  lemma {:induction false} BumpRows(stats: seq<Stat>, id: nat)
    ensures |Bump(stats, id)| == |stats|
    ensures forall i :: 0 <= i < |stats| ==> Bump(stats, id)[i].id == stats[i].id && Bump(stats, id)[i].counter == stats[i].counter
    decreases |stats|
  {
    if stats != [] && stats[0].id != id {
      BumpRows(stats[1..], id);
    }
  }

  lemma {:induction false} WithoutRowsMembers(stats: seq<Stat>, key: string, ids: set<nat>)
    ensures forall s :: s in WithoutRows(stats, key, ids) <==> s in stats && s.counter.key != key && s.id !in ids
    decreases |stats|
  {
    if stats != [] {
      WithoutRowsMembers(stats[1..], key, ids);
      assert stats == [stats[0]] + stats[1..];
    }
  }

  lemma {:induction false} WithoutRowsUnique(stats: seq<Stat>, key: string, ids: set<nat>)
    requires UniqueRows(stats)
    ensures UniqueRows(WithoutRows(stats, key, ids))
    decreases |stats|
  {
    if stats != [] {
      WithoutRowsMembers(stats[1..], key, ids);
      WithoutRowsUnique(stats[1..], key, ids);
      var rest := WithoutRows(stats[1..], key, ids);
      forall j | 0 <= j < |rest| ensures rest[j].id != stats[0].id && rest[j].counter != stats[0].counter {
        assert rest[j] in stats[1..];
      }
    }
  }

  lemma CommitKeepsSound(db: Database, c: Counter, found: Option<nat>)
    requires Sound(db)
    ensures Sound(Commit(db, c, found).0)
  {
    var after := Commit(db, c, found).0;
    if found.Some? {
      BumpRows(db.stats, found.value);
      forall s | s in after.stats ensures s.counter.key in db.keys && (db.backend.PostgreSQL? ==> s.id < db.nextId) {
        var i :| 0 <= i < |after.stats| && after.stats[i] == s;
        assert db.stats[i] in db.stats;
      }
    } else {
      forall i | 0 <= i < |db.stats| ensures db.stats[i].id != NewId(db) && (FindRow(db.stats, c).None? ==> db.stats[i].counter != c) {
        assert db.stats[i] in db.stats;
      }
    }
  }

  /** What a call found is by now the row of another counter. A write could check it: the row's
      key, package and event type are not those looked up. */
  predicate Misdirected(db: Database, c: Counter, found: Option<nat>) {
    found.Some? && exists s :: s in db.stats && s.id == found.value && s.counter != c
  }

  /** The counter a call that returns has counted for. */
  ghost function Landing(db: Database, c: Counter, found: Option<nat>): Counter {
    if found.Some? && exists s :: s in db.stats && s.id == found.value then
      var s :| s in db.stats && s.id == found.value;
      s.counter
    else c
  }

  lemma CommitLands(db: Database, c: Counter, found: Option<nat>, p: Counter -> bool)
    requires Sound(db)
    ensures Commit(db, c, found).1.Raised? ==> Commit(db, c, found).0 == db
    ensures Commit(db, c, found).1.Returned? ==>
              Sum(Commit(db, c, found).0.stats, p) == Sum(db.stats, p) + if p(Landing(db, c, found)) then 1 else 0
  {
    if found.Some? && exists s :: s in db.stats && s.id == found.value {
      SumBump(db.stats, found.value, Landing(db, c, found), p);
    } else if found.None? {
      SumAppend(db.stats, Stat(NewId(db), c, 1), p);
    }
  }

  lemma LandingIsOwn(db: Database, c: Counter, found: Option<nat>)
    requires Sound(db)
    ensures Landing(db, c, found) == c <==> !Misdirected(db, c, found)
  {
  }

  /** A call that raises changes nothing. A call that returns adds exactly one to every sum its own
      counter is in, and nothing to any other, exactly when the write is not misdirected. */
  lemma CommitCountsOnce(db: Database, c: Counter, found: Option<nat>)
    requires Sound(db)
    ensures Commit(db, c, found).1.Raised? ==> Commit(db, c, found).0 == db
    ensures Commit(db, c, found).1.Returned? ==>
              ((forall p :: Sum(Commit(db, c, found).0.stats, p) == Sum(db.stats, p) + if p(c) then 1 else 0)
               <==> !Misdirected(db, c, found))
  {
    LandingIsOwn(db, c, found);
    forall p
      ensures Commit(db, c, found).1.Returned? ==>
                Sum(Commit(db, c, found).0.stats, p) == Sum(db.stats, p) + if p(Landing(db, c, found)) then 1 else 0
    {
      CommitLands(db, c, found, p);
    }
    if Misdirected(db, c, found) {
      var only := Only(Landing(db, c, found));
      assert only(Landing(db, c, found)) && !only(c);
    }
  }

  /** The selection of a single counter. */
  function Only(c: Counter): Counter -> bool {
    (x: Counter) => x == c
  }

  /** Two calls that both looked before either inserted: the first inserts, the second raises. */
  lemma LostInsertRaceRaises(db: Database, c: Counter)
    requires Sound(db) && c.key in db.keys && FindRow(db.stats, c).None?
    ensures Commit(db, c, None).1.Returned?
    ensures Commit(Commit(db, c, None).0, c, None) == (Commit(db, c, None).0, Raised)
  {
    var after := Commit(db, c, None).0;
    assert after.stats[|db.stats|] in after.stats && after.stats[|db.stats|].counter == c;
  }

  // ----------------------------------------------------------------------------- whole runs

  datatype Call = Call(counter: Counter, found: Option<nat>)

  /** A `delete_key` that found its key, and the ids of the rows it has loaded. */
  datatype Deletion = Deletion(key: string, loaded: Option<set<nat>>)

  /** `open` holds the calls between their lookup and their commit, `deleting` the deletions between
      finding the key and their commit; `log` the counters of the calls that returned normally. */
  datatype State = State(db: Database, open: map<nat, Call>, deleting: map<nat, Deletion>, log: seq<Counter>)

  datatype Step =
    | Lookup(call: nat, counter: Counter)
    | Write(call: nat)
    | Abort(call: nat)         // any other failure: rolled back, and raised
    | CreateKey(key: string)
    | FindKey(del: nat, key: string)
    | LoadRows(del: nat)
    | CommitDelete(del: nat)
    | AbortDelete(del: nat)

  predicate Enabled(s: State, step: Step) {
    match step
    case Lookup(call, _) => call !in s.open
    case Write(call) => call in s.open
    case Abort(call) => call in s.open
    case CreateKey(_) => true
    case FindKey(del, key) => del !in s.deleting && key in s.db.keys
    case LoadRows(del) => del in s.deleting && s.deleting[del].loaded.None?
    case CommitDelete(del) => del in s.deleting && s.deleting[del].loaded.Some?
    case AbortDelete(del) => del in s.deleting
  }

  /** A row that is gone by now, or a key, only draws a warning. */
  function Deleted(db: Database, key: string, ids: set<nat>): Database {
    db.(keys := db.keys - {key}, stats := WithoutRows(db.stats, key, ids))
  }

  function Apply(s: State, step: Step): State
    requires Enabled(s, step)
  {
    match step
    case Lookup(call, c) => s.(open := s.open[call := Call(c, FindRow(s.db.stats, c))])
    case Write(call) =>
      var c := s.open[call];
      var r := Commit(s.db, c.counter, c.found);
      s.(db := r.0, open := s.open - {call}, log := if r.1.Returned? then s.log + [c.counter] else s.log)
    case Abort(call) => s.(open := s.open - {call})
    case CreateKey(key) => s.(db := s.db.(keys := s.db.keys + {key}))
    case FindKey(del, key) => s.(deleting := s.deleting[del := Deletion(key, None)])
    case LoadRows(del) =>
      var key := s.deleting[del].key;
      s.(deleting := s.deleting[del := Deletion(key, Some(IdsOf(s.db.stats, key)))])
    case CommitDelete(del) =>
      s.(db := Deleted(s.db, s.deleting[del].key, s.deleting[del].loaded.value), deleting := s.deleting - {del})
    case AbortDelete(del) => s.(deleting := s.deleting - {del})
  }

  lemma FoundIsTheRow(stats: seq<Stat>, c: Counter)
    requires UniqueRows(stats) && FindRow(stats, c).Some?
    ensures forall row :: row in stats && row.id == FindRow(stats, c).value ==> row.counter == c
  {
  }

  lemma DeletedKeepsSound(db: Database, key: string, ids: set<nat>)
    requires Sound(db)
    ensures Sound(Deleted(db, key, ids))
  {
    WithoutRowsMembers(db.stats, key, ids);
    WithoutRowsUnique(db.stats, key, ids);
  }

  lemma StepKeepsSound(s: State, step: Step)
    requires Sound(s.db) && Enabled(s, step)
    ensures Sound(Apply(s, step).db) && Apply(s, step).db.backend == s.db.backend
  {
    match step
    case Write(call) => CommitKeepsSound(s.db, s.open[call].counter, s.open[call].found);
    case CommitDelete(del) => DeletedKeepsSound(s.db, s.deleting[del].key, s.deleting[del].loaded.value);
    case _ =>
  }

  // ------------------------------------------------------------------------------- balance

  /** What a deletion loaded is by now a counted row of another key. */
  predicate DeletesAnothers(db: Database, key: string, ids: set<nat>) {
    exists s :: s in db.stats && s.id in ids && s.counter.key != key && s.count > 0
  }

  predicate MisdirectedStep(s: State, step: Step)
    requires Enabled(s, step)
  {
    match step
    case Write(call) => Misdirected(s.db, s.open[call].counter, s.open[call].found)
    case CommitDelete(del) => DeletesAnothers(s.db, s.deleting[del].key, s.deleting[del].loaded.value)
    case _ => false
  }

  /** From one state to a later one the selected counts grow by the selected calls that returned. */
  ghost predicate Balanced(a: State, b: State, p: Counter -> bool) {
    Sum(b.db.stats, p) + Count(a.log, p) == Sum(a.db.stats, p) + Count(b.log, p)
  }

  /** The counters `p` looks at belong to keys this step does not delete. */
  ghost predicate Spares(s: State, step: Step, p: Counter -> bool) {
    step.CommitDelete? && step.del in s.deleting ==> forall c :: p(c) ==> c.key != s.deleting[step.del].key
  }

  lemma StepBalances(s: State, step: Step, p: Counter -> bool)
    requires Sound(s.db) && Enabled(s, step) && Spares(s, step, p) && !MisdirectedStep(s, step)
    ensures Balanced(s, Apply(s, step), p)
  {
    match step
    case Write(call) =>
      var w := s.open[call];
      CommitLands(s.db, w.counter, w.found, p);
      LandingIsOwn(s.db, w.counter, w.found);
      assert (s.log + [w.counter])[..|s.log|] == s.log;
    case CommitDelete(del) => SumWithoutRows(s.db.stats, s.deleting[del].key, s.deleting[del].loaded.value, p);
    case _ =>
  }

  lemma MisdirectionUnbalances(s: State, step: Step) returns (p: Counter -> bool)
    requires Sound(s.db) && Enabled(s, step) && MisdirectedStep(s, step)
    ensures Spares(s, step, p) && !Balanced(s, Apply(s, step), p)
  {
    match step
    case Write(call) =>
      var w := s.open[call];
      p := Only(Landing(s.db, w.counter, w.found));
      CommitLands(s.db, w.counter, w.found, p);
      LandingIsOwn(s.db, w.counter, w.found);
      assert (s.log + [w.counter])[..|s.log|] == s.log;
    case CommitDelete(del) =>
      p := LateDeleteLoses(s.db, s.deleting[del].key, s.deleting[del].loaded.value);
  }

  lemma LateDeleteLoses(db: Database, key: string, ids: set<nat>) returns (p: Counter -> bool)
    requires Sound(db) && DeletesAnothers(db, key, ids)
    ensures Sum(Deleted(db, key, ids).stats, p) < Sum(db.stats, p) && forall c :: p(c) ==> c.key != key
  {
    var row :| row in db.stats && row.id in ids && row.counter.key != key && row.count > 0;
    p := Only(row.counter);
    SumOnly(db.stats, row.counter);
    WithoutRowsMembers(db.stats, key, ids);
    WithoutRowsUnique(db.stats, key, ids);
    SumOnly(WithoutRows(db.stats, key, ids), row.counter);
    forall s | s in db.stats && s.counter == row.counter ensures s == row {
      var i, j :| 0 <= i < |db.stats| && 0 <= j < |db.stats| && db.stats[i] == s && db.stats[j] == row;
    }
  }

  ghost predicate StepAt(states: seq<State>, steps: seq<Step>, i: nat)
    requires |states| == |steps| + 1 && i < |steps|
  {
    Enabled(states[i], steps[i]) && states[i + 1] == Apply(states[i], steps[i])
  }

  ghost predicate Run(states: seq<State>, steps: seq<Step>) {
    |states| == |steps| + 1 && forall i: nat :: i < |steps| ==> StepAt(states, steps, i)
  }

  /** The i-th step is a write, or a delete, that hits a row of another. */
  ghost predicate MisdirectedAt(states: seq<State>, steps: seq<Step>, i: nat)
    requires Run(states, steps) && i < |steps|
  {
    assert StepAt(states, steps, i);
    MisdirectedStep(states[i], steps[i])
  }

  ghost predicate SparedBetween(states: seq<State>, steps: seq<Step>, i: nat, j: nat, p: Counter -> bool)
    requires i <= j <= |steps| < |states|
  {
    forall k | i <= k < j :: Spares(states[k], steps[k], p)
  }

  lemma {:induction false} RunKeepsSound(states: seq<State>, steps: seq<Step>, i: nat)
    requires Run(states, steps) && Sound(states[0].db) && i < |states|
    ensures Sound(states[i].db) && states[i].db.backend == states[0].db.backend
    decreases i
  {
    if i > 0 {
      RunKeepsSound(states, steps, i - 1);
      assert StepAt(states, steps, i - 1);
      StepKeepsSound(states[i - 1], steps[i - 1]);
    }
  }

  /** Between any two states with no misdirected step in between, the counts of any selection of
      counters of undeleted keys grow by exactly the selected calls that returned normally. */
  lemma {:induction false} CountsAreCallsReturned(states: seq<State>, steps: seq<Step>, i: nat, j: nat, p: Counter -> bool)
    requires Run(states, steps) && Sound(states[0].db) && i <= j < |states|
    requires SparedBetween(states, steps, i, j, p) && forall k: nat | i <= k < j :: !MisdirectedAt(states, steps, k)
    ensures Balanced(states[i], states[j], p)
    decreases j - i
  {
    if i < j {
      CountsAreCallsReturned(states, steps, i, j - 1, p);
      RunKeepsSound(states, steps, j - 1);
      assert StepAt(states, steps, j - 1) && Spares(states[j - 1], steps[j - 1], p) && !MisdirectedAt(states, steps, j - 1);
      StepBalances(states[j - 1], steps[j - 1], p);
    }
  }

  /** Every stretch of the run keeps the books of every selection. */
  ghost predicate BooksBalance(states: seq<State>, steps: seq<Step>)
    requires Run(states, steps)
  {
    forall i: nat, j: nat, p: Counter -> bool | i <= j < |states| && SparedBetween(states, steps, i, j, p) :: Balanced(states[i], states[j], p)
  }

  lemma MisdirectionShows(states: seq<State>, steps: seq<Step>, i: nat)
    requires Run(states, steps) && Sound(states[0].db) && i < |steps| && MisdirectedAt(states, steps, i)
    ensures !BooksBalance(states, steps)
  {
    RunKeepsSound(states, steps, i);
    assert StepAt(states, steps, i);
    var p := MisdirectionUnbalances(states[i], steps[i]);
    assert SparedBetween(states, steps, i, i + 1, p) && !Balanced(states[i], states[i + 1], p);
  }

  /** Over every interleaving on either backend, the books balance exactly when no write
      and no delete is misdirected. */
  lemma BooksBalanceExactly(states: seq<State>, steps: seq<Step>)
    requires Run(states, steps) && Sound(states[0].db)
    ensures BooksBalance(states, steps) <==> forall i: nat | i < |steps| :: !MisdirectedAt(states, steps, i)
  {
    if i: nat :| i < |steps| && MisdirectedAt(states, steps, i) {
      MisdirectionShows(states, steps, i);
    } else {
      forall i: nat, j: nat, p: Counter -> bool | i <= j < |states| && SparedBetween(states, steps, i, j, p)
        ensures Balanced(states[i], states[j], p)
      {
        CountsAreCallsReturned(states, steps, i, j, p);
      }
    }
  }

  // ---------------------------------------------------- PostgreSQL: an id is never given twice

  /** No row other than the counter's has this id, nor ever will. */
  ghost predicate IdOf(db: Database, id: nat, key: string) {
    id < db.nextId && forall row :: row in db.stats && row.id == id ==> row.counter.key == key
  }

  /** What open calls and open deletions found is theirs or gone. */
  ghost predicate IdsFresh(s: State) {
    && s.db.backend.PostgreSQL? && Sound(s.db)
    && (forall call :: call in s.open && s.open[call].found.Some? ==>
          && s.open[call].found.value < s.db.nextId
          && (forall row :: row in s.db.stats && row.id == s.open[call].found.value ==> row.counter == s.open[call].counter))
    && (forall del, id :: del in s.deleting && s.deleting[del].loaded.Some? && id in s.deleting[del].loaded.value ==>
          IdOf(s.db, id, s.deleting[del].key))
  }

  lemma LookupKeepsFresh(s: State, call: nat, c: Counter)
    requires IdsFresh(s) && call !in s.open
    ensures IdsFresh(Apply(s, Lookup(call, c)))
  {
    if FindRow(s.db.stats, c).Some? {
      FoundIsTheRow(s.db.stats, c);
    }
  }

  /** Rows after a commit are rows of before, with the same id and counter, or the new one. */
  lemma CommitRows(db: Database, c: Counter, found: Option<nat>, row: Stat)
    requires Sound(db) && row in Commit(db, c, found).0.stats
    ensures row.id == NewId(db) || exists was :: was in db.stats && was.id == row.id && was.counter == row.counter
  {
    var after := Commit(db, c, found).0.stats;
    if found.Some? {
      BumpRows(db.stats, found.value);
    }
    var i :| 0 <= i < |after| && after[i] == row;
    if i < |db.stats| {
      assert db.stats[i] in db.stats;
    }
  }

  lemma WriteKeepsFresh(s: State, call: nat)
    requires IdsFresh(s) && call in s.open
    ensures IdsFresh(Apply(s, Write(call)))
  {
    var w, s' := s.open[call], Apply(s, Write(call));
    CommitKeepsSound(s.db, w.counter, w.found);
    forall other, row | other in s'.open && s'.open[other].found.Some? && row in s'.db.stats && row.id == s'.open[other].found.value
      ensures row.counter == s'.open[other].counter
    {
      CommitRows(s.db, w.counter, w.found, row);
    }
    forall del, id | del in s'.deleting && s'.deleting[del].loaded.Some? && id in s'.deleting[del].loaded.value
      ensures IdOf(s'.db, id, s'.deleting[del].key)
    {
      assert IdOf(s.db, id, s.deleting[del].key);
      forall row | row in s'.db.stats && row.id == id ensures row.counter.key == s.deleting[del].key {
        CommitRows(s.db, w.counter, w.found, row);
      }
    }
  }

  lemma LoadKeepsFresh(s: State, del: nat)
    requires IdsFresh(s) && Enabled(s, LoadRows(del))
    ensures IdsFresh(Apply(s, LoadRows(del)))
  {
    var key := s.deleting[del].key;
    forall id | id in IdsOf(s.db.stats, key) ensures IdOf(s.db, id, key) {
      var own :| own in s.db.stats && own.counter.key == key && own.id == id;
      FoundIsTheRowOf(s.db.stats, own);
    }
  }

  lemma FoundIsTheRowOf(stats: seq<Stat>, own: Stat)
    requires UniqueRows(stats) && own in stats
    ensures forall row :: row in stats && row.id == own.id ==> row == own
  {
  }

  lemma DeleteKeepsFresh(s: State, del: nat)
    requires IdsFresh(s) && Enabled(s, CommitDelete(del))
    ensures IdsFresh(Apply(s, CommitDelete(del))) && !MisdirectedStep(s, CommitDelete(del))
  {
    var d, s' := s.deleting[del], Apply(s, CommitDelete(del));
    StepKeepsSound(s, CommitDelete(del));
    WithoutRowsMembers(s.db.stats, d.key, d.loaded.value);
    forall row | row in s.db.stats && row.id in d.loaded.value ensures row.counter.key == d.key {
      assert IdOf(s.db, row.id, d.key);
    }
    forall other, id | other in s'.deleting && s'.deleting[other].loaded.Some? && id in s'.deleting[other].loaded.value
      ensures IdOf(s'.db, id, s'.deleting[other].key)
    {
      assert IdOf(s.db, id, s.deleting[other].key);
    }
  }

  lemma StepKeepsFresh(s: State, step: Step)
    requires IdsFresh(s) && Enabled(s, step)
    ensures IdsFresh(Apply(s, step)) && !MisdirectedStep(s, step)
  {
    match step
    case Lookup(call, c) => LookupKeepsFresh(s, call, c);
    case Write(call) => WriteKeepsFresh(s, call);
    case LoadRows(del) => LoadKeepsFresh(s, del);
    case CommitDelete(del) => DeleteKeepsFresh(s, del);
    case _ =>
  }

  lemma {:induction false} RunStaysFresh(states: seq<State>, steps: seq<Step>, i: nat)
    requires Run(states, steps) && IdsFresh(states[0]) && i < |states|
    ensures IdsFresh(states[i])
    decreases i
  {
    if i > 0 {
      RunStaysFresh(states, steps, i - 1);
      assert StepAt(states, steps, i - 1);
      StepKeepsFresh(states[i - 1], steps[i - 1]);
    }
  }

  /** On PostgreSQL the books balance in every run. */
  lemma PostgresBooksBalance(states: seq<State>, steps: seq<Step>)
    requires Run(states, steps) && IdsFresh(states[0])
    ensures BooksBalance(states, steps)
  {
    forall i: nat | i < |steps|
      ensures !MisdirectedAt(states, steps, i)
    {
      RunStaysFresh(states, steps, i);
      assert StepAt(states, steps, i);
      StepKeepsFresh(states[i], steps[i]);
    }
    BooksBalanceExactly(states, steps);
  }

  // ------------------------------------------------- either backend: no key goes too early

  /** The rows open calls and open deletions found are still theirs. */
  ghost predicate RowsHeld(s: State) {
    && Sound(s.db)
    && (forall call :: call in s.open && s.open[call].found.Some? ==> IsRow(s.db.stats, s.open[call].found.value, s.open[call].counter))
    && (forall del, id :: del in s.deleting && s.deleting[del].loaded.Some? && id in s.deleting[del].loaded.value ==>
          IsRowOf(s.db.stats, id, s.deleting[del].key))
  }

  ghost predicate IsRowOf(stats: seq<Stat>, id: nat, key: string) {
    exists row :: row in stats && row.id == id && row.counter.key == key
  }

  ghost predicate IsRow(stats: seq<Stat>, id: nat, c: Counter) {
    exists row :: row in stats && row.id == id && row.counter == c
  }

  /** A deletion commits while a call, or another deletion, that had found rows of the key is open. */
  predicate DeletesTooEarly(s: State, step: Step) {
    step.CommitDelete? && step.del in s.deleting &&
    var key := s.deleting[step.del].key;
    || (exists call :: call in s.open && s.open[call].found.Some? && s.open[call].counter.key == key)
    || (exists other :: other in s.deleting && other != step.del && s.deleting[other].key == key
          && s.deleting[other].loaded.Some? && s.deleting[other].loaded.value != {})
  }

  lemma CommitKeepsRow(db: Database, c: Counter, found: Option<nat>, row: Stat)
    requires Sound(db) && row in db.stats
    ensures IsRow(Commit(db, c, found).0.stats, row.id, row.counter)
  {
    var i :| 0 <= i < |db.stats| && db.stats[i] == row;
    if found.Some? {
      BumpRows(db.stats, found.value);
    }
    assert Commit(db, c, found).0.stats[i] in Commit(db, c, found).0.stats;
  }

  lemma WriteHoldsRows(s: State, call: nat)
    requires RowsHeld(s) && call in s.open
    ensures RowsHeld(Apply(s, Write(call))) && !MisdirectedStep(s, Write(call))
  {
    var w, s' := s.open[call], Apply(s, Write(call));
    CommitKeepsSound(s.db, w.counter, w.found);
    forall row | row in s.db.stats ensures IsRow(s'.db.stats, row.id, row.counter) {
      CommitKeepsRow(s.db, w.counter, w.found, row);
    }
    forall del, id | del in s'.deleting && s'.deleting[del].loaded.Some? && id in s'.deleting[del].loaded.value
      ensures IsRowOf(s'.db.stats, id, s'.deleting[del].key)
    {
      assert IsRowOf(s.db.stats, id, s.deleting[del].key);
      var row :| row in s.db.stats && row.id == id && row.counter.key == s.deleting[del].key;
      assert IsRow(s'.db.stats, row.id, row.counter);
    }
  }

  /** The rows a deletion takes are the key's. */
  lemma DeletionTakesItsRows(s: State, del: nat, row: Stat)
    requires RowsHeld(s) && Enabled(s, CommitDelete(del)) && row in s.db.stats && row.id in s.deleting[del].loaded.value
    ensures row.counter.key == s.deleting[del].key
  {
    assert IsRowOf(s.db.stats, row.id, s.deleting[del].key);
    FoundIsTheRowOf(s.db.stats, row);
  }

  lemma DeleteHoldsRows(s: State, del: nat)
    requires RowsHeld(s) && Enabled(s, CommitDelete(del)) && !DeletesTooEarly(s, CommitDelete(del))
    ensures RowsHeld(Apply(s, CommitDelete(del))) && !MisdirectedStep(s, CommitDelete(del))
  {
    var d, s' := s.deleting[del], Apply(s, CommitDelete(del));
    StepKeepsSound(s, CommitDelete(del));
    WithoutRowsMembers(s.db.stats, d.key, d.loaded.value);
    forall row | row in s.db.stats && row.id in d.loaded.value ensures row.counter.key == d.key {
      DeletionTakesItsRows(s, del, row);
    }
    forall other, id | other in s'.deleting && s'.deleting[other].loaded.Some? && id in s'.deleting[other].loaded.value
      ensures IsRowOf(s'.db.stats, id, s'.deleting[other].key)
    {
      assert IsRowOf(s.db.stats, id, s.deleting[other].key);
    }
  }

  lemma LookupHoldsRows(s: State, call: nat, c: Counter)
    requires RowsHeld(s) && call !in s.open
    ensures RowsHeld(Apply(s, Lookup(call, c)))
  {
  }

  lemma StepHoldsRows(s: State, step: Step)
    requires RowsHeld(s) && Enabled(s, step) && !DeletesTooEarly(s, step)
    ensures RowsHeld(Apply(s, step)) && !MisdirectedStep(s, step)
  {
    match step
    case Lookup(call, c) => LookupHoldsRows(s, call, c);
    case Write(call) => WriteHoldsRows(s, call);
    case CommitDelete(del) => DeleteHoldsRows(s, del);
    case _ =>
  }

  ghost predicate DeletesTooEarlyAt(states: seq<State>, steps: seq<Step>, i: nat)
    requires |states| == |steps| + 1 && i < |steps|
  {
    DeletesTooEarly(states[i], steps[i])
  }

  lemma {:induction false} RunHoldsRows(states: seq<State>, steps: seq<Step>, i: nat)
    requires Run(states, steps) && RowsHeld(states[0]) && i < |states|
    requires forall k: nat | k < |steps| :: !DeletesTooEarlyAt(states, steps, k)
    ensures RowsHeld(states[i])
    decreases i
  {
    if i > 0 {
      RunHoldsRows(states, steps, i - 1);
      assert StepAt(states, steps, i - 1) && !DeletesTooEarlyAt(states, steps, i - 1);
      StepHoldsRows(states[i - 1], steps[i - 1]);
    }
  }

  /** On either backend the books balance in every run that deletes no key under an open call or
      another open deletion. */
  lemma CarefulBooksBalance(states: seq<State>, steps: seq<Step>)
    requires Run(states, steps) && RowsHeld(states[0])
    requires forall k: nat | k < |steps| :: !DeletesTooEarlyAt(states, steps, k)
    ensures BooksBalance(states, steps)
  {
    forall i: nat | i < |steps|
      ensures !MisdirectedAt(states, steps, i)
    {
      RunHoldsRows(states, steps, i);
      assert StepAt(states, steps, i) && !DeletesTooEarlyAt(states, steps, i);
      StepHoldsRows(states[i], steps[i]);
    }
    BooksBalanceExactly(states, steps);
  }

  // ------------------------------------------------------------- SQLite: an id is given twice

  function Sqlite(key: string, stats: seq<Stat>, nextId: nat): Database {
    Database(SQLite, {key}, stats, nextId)
  }

  /** A call looks up the last row; its key is deleted; another key's first counter gets the same
      id; the call then returns, and what it counted is the other key's. */
  lemma ReusedIdCountsForAnother(mine: Counter, other: Counter) returns (states: seq<State>, steps: seq<Step>)
    requires mine.key != other.key
    ensures Run(states, steps) && RowsHeld(states[0]) && states[0].db.backend.SQLite?
    ensures SparedBetween(states, steps, 0, |steps|, Only(other))
    ensures states[|steps|].log == [other, mine]
    ensures Sum(states[|steps|].db.stats, Only(other)) == 2 && Sum(states[0].db.stats, Only(other)) == 0
    ensures !BooksBalance(states, steps)
  {
    var s0 := State(Sqlite(mine.key, [Stat(1, mine, 7)], 0), map[], map[], []);
    var s1 := s0.(open := map[0 := Call(mine, Some(1))]);
    var s5 := State(Sqlite(other.key, [], 0), s1.open, map[], []);
    var s8 := State(Sqlite(other.key, [Stat(1, other, 2)], 1), map[], map[], [other, mine]);
    var looked := [s0, s1];
    assert Run(looked, [Lookup(0, mine)]) by {
      assert StepAt(looked, [Lookup(0, mine)], 0);
    }
    var deleted := DeletedAndCreated(mine, other, s1, s5, 0);
    var written := InsertedThenWritten(mine, other, s5, s8);
    var first := RunsJoin(looked, deleted, [Lookup(0, mine)], DeleteAndCreate(0, mine.key, other.key));
    steps := [Lookup(0, mine)] + DeleteAndCreate(0, mine.key, other.key) + [Lookup(1, other), Write(1), Write(0)];
    states := RunsJoin(first, written, [Lookup(0, mine)] + DeleteAndCreate(0, mine.key, other.key), [Lookup(1, other), Write(1), Write(0)]);
    OtherIsSpared(states, steps, mine.key, other);
    OtherIsOff(states, steps, mine, other, 2, [other, mine]);
  }

  function DeleteAndCreate(del: nat, gone: string, made: string): seq<Step> {
    [FindKey(del, gone), LoadRows(del), CommitDelete(del), CreateKey(made)]
  }

  /** The only key goes with its only row, and another comes. */
  lemma DeletedAndCreated(mine: Counter, other: Counter, s1: State, s5: State, del: nat) returns (states: seq<State>)
    requires mine.key != other.key && del !in s1.deleting && s1.db == Sqlite(mine.key, [Stat(1, mine, 7)], 0)
    requires s5 == s1.(db := Sqlite(other.key, [], 0))
    ensures |states| == 5 && states[0] == s1 && states[4] == s5
    ensures Run(states, DeleteAndCreate(del, mine.key, other.key))
  {
    var steps := DeleteAndCreate(del, mine.key, other.key);
    OnlyRow(Stat(1, mine, 7));
    var s2 := Apply(s1, FindKey(del, mine.key));
    var s3 := Apply(s2, LoadRows(del));
    var s4 := Apply(s3, CommitDelete(del));
    assert s4.deleting == s1.deleting && s4.db.keys == {};
    states := [s1, s2, s3, s4, s5];
    FourSteps(states, steps);
  }

  lemma FourSteps(states: seq<State>, steps: seq<Step>)
    requires |steps| == 4 && |states| == 5
    requires StepAt(states, steps, 0) && StepAt(states, steps, 1) && StepAt(states, steps, 2) && StepAt(states, steps, 3)
    ensures Run(states, steps)
  {
  }

  lemma OnlyRow(row: Stat)
    ensures WithoutRows([row], row.counter.key, {row.id}) == [] && IdsOf([row], row.counter.key) == {row.id}
  {
    assert [row][1..] == [];
  }

  lemma InsertedThenWritten(mine: Counter, other: Counter, s5: State, s8: State) returns (states: seq<State>)
    requires mine.key != other.key
    requires s5 == State(Sqlite(other.key, [], 0), map[0 := Call(mine, Some(1))], map[], [])
    requires s8 == State(Sqlite(other.key, [Stat(1, other, 2)], 1), map[], map[], [other, mine])
    ensures |states| == 4 && states[0] == s5 && states[3] == s8
    ensures Run(states, [Lookup(1, other), Write(1), Write(0)])
  {
    var s6 := Apply(s5, Lookup(1, other));
    var s7 := Apply(s6, Write(1));
    assert s7.db.stats == [Stat(1, other, 1)] && s7.open == map[0 := Call(mine, Some(1))];
    assert Apply(s7, Write(0)).db.stats == [Stat(1, other, 2)];
    states := [s5, s6, s7, s8];
  }

  /** Two deletions load the same last row; after the first, another key's first counter gets its
      id and counts a call; the second deletion takes it. No write goes astray, and no call is open
      when a key is deleted. */
  lemma LateDeleteTakesAnothers(mine: Counter, other: Counter) returns (states: seq<State>, steps: seq<Step>)
    requires mine.key != other.key
    ensures Run(states, steps) && RowsHeld(states[0]) && states[0].db.backend.SQLite?
    ensures SparedBetween(states, steps, 0, |steps|, Only(other))
    ensures states[|steps|].log == [other]
    ensures forall i: nat | i < |steps| && steps[i].Write? :: !MisdirectedAt(states, steps, i)
    ensures Sum(states[|steps|].db.stats, Only(other)) == 0 && Sum(states[0].db.stats, Only(other)) == 0
    ensures !BooksBalance(states, steps)
  {
    var late := map[1 := Deletion(mine.key, Some({1}))];
    var s0 := State(Sqlite(mine.key, [Stat(1, mine, 7)], 0), map[], map[], []);
    var s2 := s0.(deleting := late);
    var s6 := State(Sqlite(other.key, [], 0), map[], late, []);
    var s9 := State(Sqlite(other.key, [], 1), map[], map[], [other]);
    var loaded := LoadedOnce(mine, s0, s2);
    var deleted := DeletedAndCreated(mine, other, s2, s6, 0);
    var taken := CountedThenTaken(mine, other, s6, s9);
    var first := RunsJoin(loaded, deleted, [FindKey(1, mine.key), LoadRows(1)], DeleteAndCreate(0, mine.key, other.key));
    steps := [FindKey(1, mine.key), LoadRows(1)] + DeleteAndCreate(0, mine.key, other.key) + [Lookup(2, other), Write(2), CommitDelete(1)];
    states := RunsJoin(first, taken, [FindKey(1, mine.key), LoadRows(1)] + DeleteAndCreate(0, mine.key, other.key),
                       [Lookup(2, other), Write(2), CommitDelete(1)]);
    assert states[6 + 1] == taken[1];
    OnlyWriteInserts(states, steps, other, mine.key);
    OtherIsSpared(states, steps, mine.key, other);
    OtherIsOff(states, steps, mine, other, 0, [other]);
  }

  lemma OnlyWriteInserts(states: seq<State>, steps: seq<Step>, other: Counter, key: string)
    requires Run(states, steps) && |steps| == 9 && states[7].open == map[2 := Call(other, None)]
    requires steps == [FindKey(1, key), LoadRows(1)] + DeleteAndCreate(0, key, other.key) + [Lookup(2, other), Write(2), CommitDelete(1)]
    ensures forall i: nat | i < |steps| && steps[i].Write? :: !MisdirectedAt(states, steps, i)
  {
    forall i: nat | i < |steps| && steps[i].Write?
      ensures !MisdirectedAt(states, steps, i)
    {
      assert i == 7;
    }
  }

  lemma LoadedOnce(mine: Counter, s0: State, s2: State) returns (states: seq<State>)
    requires s0 == State(Sqlite(mine.key, [Stat(1, mine, 7)], 0), map[], map[], [])
    requires s2 == s0.(deleting := map[1 := Deletion(mine.key, Some({1}))])
    ensures |states| == 3 && states[0] == s0 && states[2] == s2
    ensures Run(states, [FindKey(1, mine.key), LoadRows(1)])
  {
    OnlyRow(Stat(1, mine, 7));
    states := [s0, Apply(s0, FindKey(1, mine.key)), s2];
  }

  lemma CountedThenTaken(mine: Counter, other: Counter, s6: State, s9: State) returns (states: seq<State>)
    requires mine.key != other.key
    requires s6 == State(Sqlite(other.key, [], 0), map[], map[1 := Deletion(mine.key, Some({1}))], [])
    requires s9 == State(Sqlite(other.key, [], 1), map[], map[], [other])
    ensures |states| == 4 && states[0] == s6 && states[3] == s9 && states[1].open == map[2 := Call(other, None)]
    ensures Run(states, [Lookup(2, other), Write(2), CommitDelete(1)])
  {
    var s7 := Apply(s6, Lookup(2, other));
    var s8 := Apply(s7, Write(2));
    assert s8.db.stats == [Stat(1, other, 1)] && s8.open == map[] && s8.log == [other];
    assert WithoutRows([Stat(1, other, 1)], mine.key, {1}) == [];
    assert Apply(s8, CommitDelete(1)).db.keys == {other.key};
    states := [s6, s7, s8, s9];
  }

  lemma RunsJoin(first: seq<State>, second: seq<State>, a: seq<Step>, b: seq<Step>) returns (states: seq<State>)
    requires Run(first, a) && Run(second, b) && first[|a|] == second[0]
    ensures Run(states, a + b) && states[0] == first[0] && states[|a| + |b|] == second[|b|]
    ensures forall i: nat | i < |a| :: states[i] == first[i]
    ensures forall i: nat | i <= |b| :: states[|a| + i] == second[i]
  {
    states := first[..|a|] + second;
    forall i: nat | i < |a + b|
      ensures StepAt(states, a + b, i)
    {
      if i < |a| {
        assert StepAt(first, a, i);
        assert states[i + 1] == first[i + 1];
      } else {
        assert StepAt(second, b, i - |a|);
      }
    }
  }

  lemma {:induction false} DeletionsAreOf(states: seq<State>, steps: seq<Step>, key: string, i: nat)
    requires Run(states, steps) && states[0].deleting == map[] && i < |states|
    requires forall step :: step in steps && step.FindKey? ==> step.key == key
    ensures forall del :: del in states[i].deleting ==> states[i].deleting[del].key == key
    decreases i
  {
    if i > 0 {
      DeletionsAreOf(states, steps, key, i - 1);
      assert StepAt(states, steps, i - 1) && steps[i - 1] in steps;
    }
  }

  lemma OtherIsSpared(states: seq<State>, steps: seq<Step>, key: string, other: Counter)
    requires Run(states, steps) && states[0].deleting == map[] && other.key != key
    requires forall step :: step in steps && step.FindKey? ==> step.key == key
    ensures SparedBetween(states, steps, 0, |steps|, Only(other))
  {
    forall k | 0 <= k < |steps| ensures Spares(states[k], steps[k], Only(other)) {
      DeletionsAreOf(states, steps, key, k);
    }
  }

  lemma OtherIsOff(states: seq<State>, steps: seq<Step>, mine: Counter, other: Counter, total: nat, log: seq<Counter>)
    requires mine.key != other.key && Run(states, steps)
    requires states[0].log == [] && states[0].db.stats == [Stat(1, mine, 7)]
    requires states[|steps|].log == log && states[|steps|].db.stats == if total == 0 then [] else [Stat(1, other, total)]
    requires log == [other, mine] || log == [other]
    requires total != 1 && SparedBetween(states, steps, 0, |steps|, Only(other))
    ensures Sum(states[|steps|].db.stats, Only(other)) == total && Sum(states[0].db.stats, Only(other)) == 0
    ensures !BooksBalance(states, steps)
  {
    var p := Only(other);
    assert log[..1] == [other] && log[..1][..0] == [];
    assert Count(log[..1], p) == 1;
    assert Count(log, p) == 1;
    assert states[0].db.stats[1..] == [] && (total != 0 ==> states[|steps|].db.stats[1..] == []);
    assert !Balanced(states[0], states[|steps|], p);
  }

  // ------------------------------------------------------------------------------ the totals

  function OfKey(stats: seq<Stat>, key: string): seq<Stat> {
    if stats == [] then []
    else (if stats[0].counter.key == key then [stats[0]] else []) + OfKey(stats[1..], key)
  }

  function Selects(key: string, event: string): Counter -> bool {
    (c: Counter) => c.key == key && c.event == event
  }

  function OfEvent(event: string): Counter -> bool {
    (c: Counter) => c.event == event
  }

  /** The order of `sorted(stats, key=lambda x: (-x.count, x.package_name))`. */
  predicate RanksBefore(a: Stat, b: Stat) {
    a.count > b.count || (a.count == b.count && Less(a.counter.package, b.counter.package))
  }

  predicate InRank(a: Stat, b: Stat) {
    && a.count >= b.count
    && (a.count == b.count ==> !Less(b.counter.package, a.counter.package))
  }

  /** The most counted first, equal counts by package name. */
  ghost predicate Ranked(rows: seq<Stat>) {
    forall i, j :: 0 <= i < j < |rows| ==> InRank(rows[i], rows[j])
  }

  function InsertRanked(rows: seq<Stat>, s: Stat): (r: seq<Stat>)
    ensures multiset(r) == multiset(rows) + multiset{s}
  {
    if rows == [] then [s]
    else
      assert rows == [rows[0]] + rows[1..];
      if RanksBefore(s, rows[0]) then [s] + rows else [rows[0]] + InsertRanked(rows[1..], s)
  }

  function RankRows(rows: seq<Stat>): (r: seq<Stat>)
    ensures multiset(r) == multiset(rows)
  {
    if rows == [] then []
    else
      assert rows == rows[..|rows| - 1] + [rows[|rows| - 1]];
      InsertRanked(RankRows(rows[..|rows| - 1]), rows[|rows| - 1])
  }

  lemma RanksInTurn(a: Stat, b: Stat, c: Stat)
    ensures InRank(a, b) <==> !RanksBefore(b, a)
    ensures InRank(a, b) && InRank(b, c) ==> InRank(a, c)
    ensures RanksBefore(a, b) ==> InRank(a, b)
  {
    var x, y, z := a.counter.package, b.counter.package, c.counter.package;
    LessTotal(x, y);
    LessTotal(y, z);
    LessIrreflexive(x);
    if Less(z, x) && Less(x, y) {
      LessTransitive(z, x, y);
    }
    if Less(x, y) && Less(y, x) {
      LessTransitive(x, y, x);
    }
  }

  lemma {:induction false} InsertKeepsRank(rows: seq<Stat>, s: Stat)
    requires Ranked(rows)
    ensures Ranked(InsertRanked(rows, s))
    decreases |rows|
  {
    if rows != [] {
      if RanksBefore(s, rows[0]) {
        forall j | 0 <= j < |rows| ensures InRank(s, rows[j]) {
          RanksInTurn(s, rows[0], rows[j]);
        }
      } else {
        InsertKeepsRank(rows[1..], s);
        var rest := InsertRanked(rows[1..], s);
        RanksInTurn(rows[0], s, s);
        forall j | 0 <= j < |rest| ensures InRank(rows[0], rest[j]) {
          SameMultisetSameElements(rest, rows[1..] + [s], rest[j]);
          assert rest[j] in rows[1..] + [s];
        }
      }
    }
  }

  lemma {:induction false} RankRowsRanks(rows: seq<Stat>)
    ensures Ranked(RankRows(rows))
    decreases |rows|
  {
    if rows != [] {
      RankRowsRanks(rows[..|rows| - 1]);
      InsertKeepsRank(RankRows(rows[..|rows| - 1]), rows[|rows| - 1]);
    }
  }

  lemma {:induction false} OfKeyMembers(stats: seq<Stat>, key: string, s: Stat)
    ensures s in OfKey(stats, key) <==> s in stats && s.counter.key == key
    decreases |stats|
  {
    if stats != [] {
      OfKeyMembers(stats[1..], key, s);
      assert stats == [stats[0]] + stats[1..];
    }
  }

  /** `get_key_stats`: filter by key in the query, then sum by event type and rank the rows. */
  method GetKeyStats(db: Database, key: string) returns (downloads: nat, uploads: nat, perPackage: seq<Stat>)
    ensures downloads == Sum(db.stats, Selects(key, "download"))
    ensures uploads == Sum(db.stats, Selects(key, "upload"))
    ensures multiset(perPackage) == multiset(OfKey(db.stats, key)) && Ranked(perPackage)
    ensures Sound(db) ==> forall s :: s in perPackage ==> s.counter.key == key && s.count == Sum(db.stats, Only(s.counter))
    ensures forall s :: s in db.stats && s.counter.key == key ==> s in perPackage
  {
    var stats := OfKey(db.stats, key);
    downloads := SumOf(stats, "download");
    uploads := SumOf(stats, "upload");
    QueryThenSum(db.stats, key, "download");
    QueryThenSum(db.stats, key, "upload");
    perPackage := RankRows(stats);
    RankRowsRanks(stats);
    forall s
      ensures s in perPackage <==> s in db.stats && s.counter.key == key
      ensures Sound(db) && s in db.stats ==> s.count == Sum(db.stats, Only(s.counter))
    {
      SameMultisetSameElements(perPackage, stats, s);
      OfKeyMembers(db.stats, key, s);
      if Sound(db) {
        SumOnly(db.stats, s.counter);
      }
    }
  }

  method SumOf(stats: seq<Stat>, event: string) returns (total: nat)
    ensures total == Sum(stats, OfEvent(event))
  {
    total := 0;
    for i := 0 to |stats|
      invariant Sum(stats, OfEvent(event)) == total + Sum(stats[i..], OfEvent(event))
    {
      assert stats[i..][1..] == stats[i + 1..];
      if stats[i].counter.event == event {
        total := total + stats[i].count;
      }
    }
  }

  lemma {:induction false} QueryThenSum(stats: seq<Stat>, key: string, event: string)
    ensures Sum(OfKey(stats, key), OfEvent(event)) == Sum(stats, Selects(key, event))
    decreases |stats|
  {
    if stats != [] {
      QueryThenSum(stats[1..], key, event);
      if stats[0].counter.key == key {
        assert OfKey(stats, key)[1..] == OfKey(stats[1..], key);
      } else {
        assert OfKey(stats, key) == OfKey(stats[1..], key);
      }
    }
  }

  lemma {:induction false} SumSplit(a: seq<Stat>, b: seq<Stat>, p: Counter -> bool)
    ensures Sum(a + b, p) == Sum(a, p) + Sum(b, p)
    decreases |a|
  {
    if a == [] {
      assert a + b == b;
    } else {
      assert (a + b)[1..] == a[1..] + b;
      SumSplit(a[1..], b, p);
    }
  }

  lemma RemoveOne(a: seq<Stat>, b: seq<Stat>, i: nat)
    requires a != [] && i < |b| && b[i] == a[0] && multiset(a) == multiset(b)
    ensures multiset(a[1..]) == multiset(b[..i] + b[i + 1..])
  {
    assert a == [a[0]] + a[1..];
    assert b == b[..i] + [b[i]] + b[i + 1..];
    assert multiset(a[1..]) == multiset(a) - multiset{a[0]};
    assert multiset(b[..i] + b[i + 1..]) == multiset(b) - multiset{b[i]};
  }

  /** The order in which rows come back does not matter. */
  lemma {:induction false} SumIgnoresOrder(a: seq<Stat>, b: seq<Stat>, p: Counter -> bool)
    requires multiset(a) == multiset(b)
    ensures Sum(a, p) == Sum(b, p)
    decreases |a|
  {
    if a == [] {
      assert |multiset(b)| == 0;
    } else {
      assert a[0] in multiset(a);
      var i :| 0 <= i < |b| && b[i] == a[0];
      assert b == b[..i] + [b[i]] + b[i + 1..];
      RemoveOne(a, b, i);
      SumIgnoresOrder(a[1..], b[..i] + b[i + 1..], p);
      SumSplit(b[..i] + [b[i]], b[i + 1..], p);
      SumSplit(b[..i], [b[i]], p);
      SumSplit(b[..i], b[i + 1..], p);
    }
  }

  /** `get_download_count` / `get_upload_count` sum the key's own rows, loaded in whatever order:
      the same total as `get_key_stats`. */
  lemma TotalsAgree(db: Database, key: string, loaded: seq<Stat>, event: string)
    requires multiset(loaded) == multiset(OfKey(db.stats, key))
    ensures Sum(loaded, OfEvent(event)) == Sum(db.stats, Selects(key, event))
  {
    SumIgnoresOrder(loaded, OfKey(db.stats, key), OfEvent(event));
    QueryThenSum(db.stats, key, event);
  }

  // --------------------------------------------------------------------------- the manager

  /** One counter has gone up by one, and every other is where it was. */
  ghost predicate CountedOnce(before: Database, after: Database, c: Counter) {
    && Sum(after.stats, Only(c)) == Sum(before.stats, Only(c)) + 1
    && forall other :: other != c ==> Sum(after.stats, Only(other)) == Sum(before.stats, Only(other))
  }

  class ApiKeyManager {
    var db: Database

    constructor (db: Database)
      ensures this.db == db
    {
      this.db := db;
    }

    /** `_increment` with no other session in between: it counts once, or the key is gone. */
    method Increment(c: Counter) returns (outcome: Outcome)
      requires Sound(db)
      modifies this
      ensures Sound(db) && db.keys == old(db).keys
      ensures outcome.Returned? <==> c.key in old(db).keys
      ensures outcome.Raised? ==> db == old(db)
      ensures outcome.Returned? ==> forall p :: Sum(db.stats, p) == Sum(old(db).stats, p) + if p(c) then 1 else 0
    {
      var found := FindRow(db.stats, c);
      if found.Some? {
        FoundIsTheRow(db.stats, c);
      }
      CommitKeepsSound(db, c, found);
      CommitCountsOnce(db, c, found);
      var r := Commit(db, c, found);
      db := r.0;
      outcome := r.1;
    }

    method RecordDownload(key: string, package: string) returns (outcome: Outcome)
      requires Sound(db)
      modifies this
      ensures Sound(db) && db.keys == old(db).keys
      ensures outcome.Returned? <==> key in old(db).keys
      ensures outcome.Raised? ==> db == old(db)
      ensures outcome.Returned? ==> CountedOnce(old(db), db, Counter(key, package, "download"))
      ensures outcome.Returned? ==> Sum(db.stats, Selects(key, "download")) == Sum(old(db).stats, Selects(key, "download")) + 1
      ensures outcome.Returned? ==> Sum(db.stats, Selects(key, "upload")) == Sum(old(db).stats, Selects(key, "upload"))
    {
      outcome := Increment(Counter(key, package, "download"));
    }

    method RecordUpload(key: string, package: string) returns (outcome: Outcome)
      requires Sound(db)
      modifies this
      ensures Sound(db) && db.keys == old(db).keys
      ensures outcome.Returned? <==> key in old(db).keys
      ensures outcome.Raised? ==> db == old(db)
      ensures outcome.Returned? ==> CountedOnce(old(db), db, Counter(key, package, "upload"))
      ensures outcome.Returned? ==> Sum(db.stats, Selects(key, "upload")) == Sum(old(db).stats, Selects(key, "upload")) + 1
      ensures outcome.Returned? ==> Sum(db.stats, Selects(key, "download")) == Sum(old(db).stats, Selects(key, "download"))
    {
      outcome := Increment(Counter(key, package, "upload"));
    }
  }
}
