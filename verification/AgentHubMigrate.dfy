/** The Agent Hub's schema top-up (backend/models/agent_hub_migrate.py, lines 168-223, 263-327). */
module AgentHubMigrate {
  import opened Basics
  import opened CheckText
  import opened Databases
  import opened TableRebuild
  import opened AgentHubSchema
  import opened AgentHubChecks
  import opened AgentHubSteps
  import opened AgentHubTopUp
  import opened AgentHubGrowth

  // --------------------------------------------------------------------- CHECK constraints

  predicate Kept(dialect: Dialect, start: Database, db: Database, man: Manifest, models: map<string, Model>, k: nat)
    requires k <= |man.checks|
  {
    && Clean(dialect, db, man)
    && (Standing(start, man) ==> Standing(db, man))
    && (forall j | 0 <= j < k :: Satisfied(db, man.checks[j]))
    && (Ready(dialect, start, man, models) ==> Ready(dialect, db, man, models))
  }

  /** What holds after the first `k` entries, against the database the loop started from. */
  predicate Progress(dialect: Dialect, start: Database, db: Database, man: Manifest, models: map<string, Model>, k: nat)
    requires k <= |man.checks|
  {
    && WellFormed(db) && Trims(start, db, man)
    && (Clean(dialect, start, man) ==> Kept(dialect, start, db, man, models, k))
  }

  lemma ProgressStarts(dialect: Dialect, start: Database, man: Manifest, models: map<string, Model>)
    requires WellFormed(start)
    ensures Progress(dialect, start, start, man, models, 0)
  {
  }

  lemma ProgressSkips(dialect: Dialect, start: Database, db: Database, man: Manifest, models: map<string, Model>, k: nat)
    requires k < |man.checks| && Progress(dialect, start, db, man, models, k) && Satisfied(db, man.checks[k])
    ensures Progress(dialect, start, db, man, models, k + 1)
  {
  }

  lemma KeptEvolves(dialect: Dialect, start: Database, was: Database, now: Database, man: Manifest, models: map<string, Model>, k: nat)
    requires k < |man.checks| && Coherent(man, models)
    requires Kept(dialect, start, was, man, models, k)
    requires !Satisfied(was, man.checks[k]) && Evolved(dialect, models, was, now, man.checks[k])
    ensures Kept(dialect, start, now, man, models, k + 1)
  {
    var e := man.checks[k];
    EvolvedKeepsClean(dialect, models, was, now, man, e);
    forall j | 0 <= j < k + 1
      ensures Satisfied(now, man.checks[j])
    {
      if j < k {
        EvolvedKeepsSatisfied(dialect, models, was, now, man, e, man.checks[j]);
      } else {
        EvolvedSatisfies(dialect, models, was, now, man, e);
      }
    }
    if Standing(start, man) {
      EvolvedKeepsStanding(dialect, models, was, now, man, e);
    }
    if Ready(dialect, start, man, models) {
      EvolvedKeepsReady(dialect, models, was, now, man, e);
    }
  }

  lemma ProgressEvolves(dialect: Dialect, start: Database, was: Database, now: Database, man: Manifest, models: map<string, Model>, k: nat)
    requires k < |man.checks| && Coherent(man, models)
    requires Progress(dialect, start, was, man, models, k)
    requires !Satisfied(was, man.checks[k]) && Evolved(dialect, models, was, now, man.checks[k])
    ensures Progress(dialect, start, now, man, models, k + 1)
  {
    var e := man.checks[k];
    EvolvedKeepsWellFormed(dialect, models, was, now, e);
    EvolvedTrims(dialect, models, was, now, man, e);
    TrimsCompose(start, was, now, man);
    if Clean(dialect, start, man) {
      KeptEvolves(dialect, start, was, now, man, models, k);
    }
  }

  lemma ReadyEntryGoesThrough(dialect: Dialect, db: Database, man: Manifest, models: map<string, Model>, e: CheckEntry)
    requires Coherent(man, models) && Ready(dialect, db, man, models) && e in man.checks && e.table in db.tables && !Satisfied(db, e)
    ensures dialect.PostgreSQL? ==> ConstraintReady(db, e)
    ensures dialect.SQLite? ==> Rebuildable(db, models[e.table], e.table)
    ensures dialect.SQLite? ==> forall now | Evolved(dialect, models, db, now, e) :: Integrity(now)
  {
    assert EntryReady(dialect, db, models, e);
    if dialect.SQLite? {
      ReadyIsRebuildable(db, models[e.table], e.table);
    }
  }

  /** One turn of the loop for an entry that is not satisfied. */
  method EvolveNext(conn: Connection, man: Manifest, models: map<string, Model>, k: nat, ghost start: Database) returns (ok: bool)
    requires conn.saved.None? && Coherent(man, models) && k < |man.checks|
    requires Progress(conn.dialect, start, conn.db, man, models, k)
    requires man.checks[k].table in conn.db.tables && !Satisfied(conn.db, man.checks[k])
    modifies conn
    ensures conn.saved.None? && (old(conn.foreignKeys) ==> conn.foreignKeys)
    ensures WellFormed(conn.db) && Trims(start, conn.db, man) && IndexesStay(conn.dialect, old(conn.db), conn.db, man)
    ensures IndexesCarried(old(conn.db), conn.db, man)
    ensures ok ==> Progress(conn.dialect, start, conn.db, man, models, k + 1)
    ensures Ready(conn.dialect, old(conn.db), man, models) ==> ok
  {
    var e := man.checks[k];
    ghost var was := conn.db;
    if Ready(conn.dialect, was, man, models) {
      ReadyEntryGoesThrough(conn.dialect, was, man, models, e);
    }
    ok := EvolveOne(conn, models, e, LiveChecks(conn.db, e.table));
    if Evolved(conn.dialect, models, was, conn.db, e) {
      ProgressEvolves(conn.dialect, start, was, conn.db, man, models, k);
      EvolvedKeepsIndexes(conn.dialect, models, was, conn.db, man, e);
      EvolvedCarries(conn.dialect, models, was, conn.db, man, e);
    }
  }

  lemma IndexesStayOn(dialect: Dialect, a: Database, b: Database, c: Database, man: Manifest)
    requires IndexesStay(dialect, a, b, man) && IndexesStay(dialect, b, c, man)
    ensures IndexesStay(dialect, a, c, man)
  {
  }

  lemma CarriedOn(a: Database, b: Database, c: Database, man: Manifest)
    requires IndexesCarried(a, b, man) && IndexesCarried(b, c, man)
    ensures IndexesCarried(a, c, man)
  {
  }

  /** The report is empty as long as nothing was there to do. */
  predicate Reported(start: Database, db: Database, man: Manifest, k: nat, updated: seq<CheckEntry>)
    requires k <= |man.checks|
  {
    if updated == [] then db == start && forall j | 0 <= j < k :: Satisfied(start, man.checks[j])
    else exists e | e in man.checks :: !Satisfied(start, e)
  }

  lemma ListedTableStays(start: Database, db: Database, man: Manifest, models: map<string, Model>, e: CheckEntry)
    requires Coherent(man, models) && Trims(start, db, man) && e in man.checks
    ensures e.table in start.tables <==> e.table in db.tables
  {
    assert !IsTemp(man, e.table);
  }

  lemma ReportedAll(start: Database, db: Database, man: Manifest, updated: seq<CheckEntry>)
    requires Reported(start, db, man, |man.checks|, updated)
    ensures updated == [] <==> forall e | e in man.checks :: Satisfied(start, e)
  {
  }

  lemma ReportedNext(start: Database, db: Database, now: Database, man: Manifest, k: nat, updated: seq<CheckEntry>)
    requires k < |man.checks| && Reported(start, db, man, k, updated)
    ensures Satisfied(db, man.checks[k]) ==> Reported(start, db, man, k + 1, updated)
    ensures !Satisfied(db, man.checks[k]) ==> Reported(start, now, man, k + 1, updated + [man.checks[k]])
    ensures !Satisfied(db, man.checks[k]) ==> exists e | e in man.checks :: !Satisfied(start, e)
  {
  }

  /** One turn of the loop. */
  method EvolveEntry(conn: Connection, man: Manifest, models: map<string, Model>, present: set<string>, k: nat, updated: seq<CheckEntry>, ghost start: Database)
    returns (ok: bool, updated': seq<CheckEntry>)
    requires conn.saved.None? && Coherent(man, models) && k < |man.checks| && present == start.tables.Keys
    requires Progress(conn.dialect, start, conn.db, man, models, k) && Reported(start, conn.db, man, k, updated)
    modifies conn
    ensures conn.saved.None? && (old(conn.foreignKeys) ==> conn.foreignKeys)
    ensures WellFormed(conn.db) && Trims(start, conn.db, man) && IndexesStay(conn.dialect, old(conn.db), conn.db, man)
    ensures IndexesCarried(old(conn.db), conn.db, man)
    ensures ok ==> Progress(conn.dialect, start, conn.db, man, models, k + 1) && Reported(start, conn.db, man, k + 1, updated')
    ensures !ok ==> exists e | e in man.checks :: !Satisfied(start, e)
    ensures Ready(conn.dialect, old(conn.db), man, models) ==> ok
  {
    var e := man.checks[k];
    updated' := updated;
    ok := true;
    ghost var was := conn.db;
    ListedTableStays(start, was, man, models, e);
    if e.table in present && !Admits(LiveChecks(conn.db, e.table), e.name, e.values) {
      assert !Satisfied(was, e);
      ok := EvolveNext(conn, man, models, k, start);
      updated' := updated + [e];
    } else {
      ProgressSkips(conn.dialect, start, was, man, models, k);
    }
    ReportedNext(start, was, conn.db, man, k, updated);
  }

  /** `evolve_check_constraints` */
  method EvolveCheckConstraints(conn: Connection, man: Manifest, models: map<string, Model>) returns (ok: bool, updated: seq<CheckEntry>)
    requires conn.saved.None? && WellFormed(conn.db) && Coherent(man, models)
    modifies conn
    ensures conn.saved.None? && (old(conn.foreignKeys) ==> conn.foreignKeys)
    ensures WellFormed(conn.db) && Trims(old(conn.db), conn.db, man) && IndexesStay(conn.dialect, old(conn.db), conn.db, man)
    ensures IndexesCarried(old(conn.db), conn.db, man)
    ensures ok && Clean(conn.dialect, old(conn.db), man) ==> Kept(conn.dialect, old(conn.db), conn.db, man, models, |man.checks|)
    ensures Clean(conn.dialect, old(conn.db), man) && Ready(conn.dialect, old(conn.db), man, models) ==> ok
    ensures (ok && updated == []) <==> forall e | e in man.checks :: Satisfied(old(conn.db), e)
    ensures ok && updated == [] ==> conn.db == old(conn.db)
  {
    ghost var start := conn.db;
    updated := [];
    ok := true;
    var present := conn.db.tables.Keys;
    ProgressStarts(conn.dialect, start, man, models);
    var k := 0;
    while k < |man.checks| && ok
      invariant 0 <= k <= |man.checks|
      invariant conn.saved.None? && (old(conn.foreignKeys) ==> conn.foreignKeys)
      invariant WellFormed(conn.db) && Trims(start, conn.db, man) && IndexesStay(conn.dialect, start, conn.db, man)
      invariant IndexesCarried(start, conn.db, man)
      invariant ok ==> Progress(conn.dialect, start, conn.db, man, models, k) && Reported(start, conn.db, man, k, updated)
      invariant !ok ==> exists e | e in man.checks :: !Satisfied(start, e)
      invariant Clean(conn.dialect, start, man) && Ready(conn.dialect, start, man, models) ==> ok
    {
      ghost var before := conn.db;
      ok, updated := EvolveEntry(conn, man, models, present, k, updated, start);
      IndexesStayOn(conn.dialect, start, before, conn.db, man);
      CarriedOn(start, before, conn.db, man);
      k := k + 1;
    }
    if ok {
      ReportedAll(start, conn.db, man, updated);
    }
  }

  // -------------------------------------------------------------------------- ensure_schema

  datatype Report = Report(
    createdTables: seq<string>,
    addedColumns: seq<ColumnEntry>,
    addedIndexes: seq<IndexEntry>,
    updatedConstraints: seq<CheckEntry>)

  datatype Outcome = Raised | Finished(report: Report)

  const NOTHING := Report([], [], [], [])

  predicate SameWhereShared(a: Table, b: Table) {
    && |b.rows| == |a.rows|
    && forall i | 0 <= i < |a.rows| :: forall c | c in a.shape.columns && c in b.shape.columns :: Cell(b.rows[i], c) == Cell(a.rows[i], c)
  }

  /** No table but a leftover temporary one disappears, no row does, and no value of a column
      that is still there changes; tables without listed constraints keep everything. */
  predicate RowsKept(was: Database, now: Database, man: Manifest) {
    forall u | u in was.tables && !IsTemp(man, u) ::
      && u in now.tables
      && SameWhereShared(was.tables[u], now.tables[u])
      && (!Listed(man, u) ==> now.tables[u].rows == was.tables[u].rows && forall c | c in was.tables[u].shape.columns :: c in now.tables[u].shape.columns)
  }

  lemma GrownThenTrimmed(a: Database, b: Database, c: Database, man: Manifest)
    requires OnlyAdds(a, b) && Trims(b, c, man)
    ensures RowsKept(a, c, man)
  {
    forall u | u in a.tables && !IsTemp(man, u)
      ensures u in c.tables && SameWhereShared(a.tables[u], c.tables[u])
      ensures Listed(man, u) || (c.tables[u].rows == a.tables[u].rows && forall x | x in a.tables[u].shape.columns :: x in c.tables[u].shape.columns)
    {
      assert Extended(a.tables[u], b.tables[u]) && Trimmed(b.tables[u], c.tables[u]);
      assert Listed(man, u) || Bystander(b.tables[u], c.tables[u]);
    }
  }

  lemma OnlyAddsKeeps(dialect: Dialect, was: Database, now: Database, man: Manifest)
    requires OnlyAdds(was, now)
    ensures RowsKept(was, now, man) && IndexesStay(dialect, was, now, man)
  {
    assert Trims(now, now, man);
    GrownThenTrimmed(was, now, now, man);
  }

  /** The columns and indexes of the tables that exist, in one `engine.begin()` block. */
  method AddColumnsAndIndexes(conn: Connection, man: Manifest) returns (ok: bool, columns: seq<ColumnEntry>, indexes: seq<IndexEntry>, ghost widened: Database)
    requires conn.saved.None? && WellFormed(conn.db) && SelfConsistent(man)
    modifies conn`db, conn`saved
    ensures conn.saved.None? && WellFormed(conn.db) && OnlyAdds(old(conn.db), conn.db)
    ensures Widened(old(conn.db), widened, man.columns)
    ensures columns == AbsentColumns(man.columns, old(conn.db)) && (columns == [] ==> widened == old(conn.db))
    ensures ok ==> Indexed(widened, conn.db, man.indexes) && indexes == AbsentIndexes(man.indexes, widened)
    ensures ok && indexes == [] ==> conn.db == widened
    ensures !ok && conn.dialect.PostgreSQL? ==> conn.db == old(conn.db)
    ensures IndexesOpen(widened, man) ==> ok
  {
    ghost var was := conn.db;
    var inspector := conn.db;
    conn.BeginDdl();
    columns := AddColumns(conn, man.columns, inspector);
    widened := conn.db;
    WidenedKeepsWellFormed(was, widened, man.columns);
    ok, indexes := AddIndexes(conn, man, inspector);
    OnlyAddsCompose(was, widened, conn.db);
    if ok {
      conn.Commit();
    } else {
      conn.Rollback();
    }
  }

  method CreateIfAsked(conn: Connection, man: Manifest, models: map<string, Model>, create: bool) returns (ok: bool, created: seq<string>)
    requires conn.saved.None? && WellFormed(conn.db) && Coherent(man, models)
    modifies conn`db, conn`saved
    ensures conn.saved.None? && WellFormed(conn.db) && OnlyAdds(old(conn.db), conn.db)
    ensures created == Made(old(conn.db), man, create) && forall t | t in created :: t in models && t !in old(conn.db).tables
    ensures ok ==> IsCreated(old(conn.db), conn.db, created, models)
    ensures ok && created == [] ==> conn.db == old(conn.db)
    ensures !ok && conn.dialect.PostgreSQL? ==> conn.db == old(conn.db)
    ensures ParentsKnown(conn.dialect, old(conn.db), created, models) && IndexNamesOpen(old(conn.db), created, models) ==> ok
  {
    created := [];
    ok := true;
    if create {
      ok, created := CreateMissingTables(conn, man, models);
    }
  }

  lemma MadeNothing(db: Database, man: Manifest, create: bool)
    ensures Made(db, man, create) == [] <==> (create ==> forall t | t in man.tables :: t in db.tables)
  {
    var missing := Absent(man.tables, db);
    AbsentExact(man.tables, db);
    if missing != [] {
      assert missing[0] in missing;
    } else {
      forall t | t in man.tables
        ensures t in db.tables
      {
        assert t !in missing;
      }
    }
  }

  /** What the first three steps arrive at. */
  lemma ToppedUp(dialect: Dialect, was: Database, created: Database, widened: Database, indexed: Database, made: seq<string>, man: Manifest, models: map<string, Model>, create: bool)
    requires Coherent(man, models) && made == Made(was, man, create) && forall t | t in made :: t in models && t !in was.tables
    requires IsCreated(was, created, made, models) && Widened(created, widened, man.columns) && Indexed(widened, indexed, man.indexes)
    requires Clean(dialect, was, man)
    ensures Clean(dialect, indexed, man) && Standing(indexed, man)
    ensures Repairable(dialect, was, man, models, create) ==> Ready(dialect, indexed, man, models)
  {
    CleanCreated(dialect, was, created, made, man, models);
    CleanWidened(dialect, created, widened, man);
    CleanIndexed(dialect, widened, indexed, man, models);
    StandingReached(created, widened, indexed, man);
    GrownInSteps(was, created, widened, indexed, made, man, models);
    if Repairable(dialect, was, man, models, create) {
      ReadyWhenGrown(dialect, was, indexed, made, man, models, create);
    }
  }

  lemma Arrived(dialect: Dialect, was: Database, indexed: Database, now: Database, man: Manifest, models: map<string, Model>, create: bool)
    requires SelfConsistent(man) && Standing(indexed, man) && Trims(indexed, now, man)
    requires Kept(dialect, indexed, now, man, models, |man.checks|)
    requires create ==> forall t | t in man.tables :: t in indexed.tables
    ensures Current(now, man, create)
  {
    forall e | e in man.checks
      ensures Satisfied(now, e)
    {
      var j :| 0 <= j < |man.checks| && man.checks[j] == e;
    }
  }

  lemma AllThere(was: Database, created: Database, widened: Database, man: Manifest, models: map<string, Model>, create: bool)
    requires ListsTheModels(man, models) && (forall t | t in Made(was, man, create) :: t in models)
    requires IsCreated(was, created, Made(was, man, create), models) && Widened(created, widened, man.columns)
    ensures create ==> forall t | t in man.tables :: t in widened.tables
  {
    AbsentExact(man.tables, was);
  }

  /** Current, constraints aside. */
  predicate Complete(db: Database, man: Manifest, create: bool) {
    (create ==> forall t | t in man.tables :: t in db.tables) && Standing(db, man)
  }

  /** Three empty lists, and a database that was complete. */
  lemma NothingToAdd(was: Database, created: Database, widened: Database, indexed: Database, man: Manifest, create: bool)
    requires Made(was, man, create) == [] ==> created == was
    requires Widened(created, widened, man.columns) && (AbsentColumns(man.columns, created) == [] ==> widened == created)
    requires AbsentIndexes(man.indexes, widened) == [] ==> indexed == widened
    ensures (Made(was, man, create) == [] && AbsentColumns(man.columns, created) == [] && AbsentIndexes(man.indexes, widened) == [])
              <==> Complete(was, man, create)
    ensures Complete(was, man, create) ==> indexed == was
  {
    MadeNothing(was, man, create);
    StandingBefore(created, widened, man);
  }

  lemma CompleteGoesThrough(was: Database, man: Manifest, create: bool)
    requires Complete(was, man, create)
    ensures Made(was, man, create) == []
    ensures IndexesOpen(was, man) && AbsentColumns(man.columns, was) == []
  {
    MadeNothing(was, man, create);
    AbsentColumnsExact(man.columns, was);
    SomeOrNone(AbsentColumns(man.columns, was));
    forall e | e in man.indexes && e.table in was.tables
      ensures e.name in was.indexes
    {
      assert HasIndex(was, e);
    }
  }

  /** The three lists are exactly what was absent before the call. */
  predicate Additions(was: Database, man: Manifest, create: bool, made: seq<string>, columns: seq<ColumnEntry>, indexes: seq<IndexEntry>) {
    made == Made(was, man, create) && columns == AbsentColumns(man.columns, was) && indexes == AbsentIndexes(man.indexes, was)
  }

  /** Tables, columns and indexes; constraints come after. */
  method TopUp(conn: Connection, man: Manifest, models: map<string, Model>, create: bool)
    returns (ok: bool, made: seq<string>, columns: seq<ColumnEntry>, indexes: seq<IndexEntry>)
    requires conn.saved.None? && WellFormed(conn.db) && Coherent(man, models)
    modifies conn`db, conn`saved
    ensures conn.saved.None? && WellFormed(conn.db) && OnlyAdds(old(conn.db), conn.db)
    ensures ok && Clean(conn.dialect, old(conn.db), man) ==> Clean(conn.dialect, conn.db, man) && Complete(conn.db, man, create)
    ensures Repairable(conn.dialect, old(conn.db), man, models, create) ==>
              ok && Ready(conn.dialect, conn.db, man, models)
    ensures (ok && made == [] && columns == [] && indexes == []) <==> Complete(old(conn.db), man, create)
    ensures Complete(old(conn.db), man, create) ==> conn.db == old(conn.db)
    ensures ok ==> Additions(old(conn.db), man, create, made, columns, indexes)
    ensures ok ==> IndexesEntered(old(conn.db), conn.db, man)
  {
    ghost var was := conn.db;
    columns, indexes := [], [];
    if Complete(was, man, create) {
      CompleteGoesThrough(was, man, create);
    }
    ok, made := CreateIfAsked(conn, man, models, create);
    if !ok {
      return;
    }
    ghost var created := conn.db;
    ghost var widened;
    ok, columns, indexes, widened := AddColumnsAndIndexes(conn, man);
    OnlyAddsCompose(was, created, conn.db);
    if IndexesComing(was, man) {
      IndexesOpenWhenGrown(was, created, widened, made, man, models);
    }
    if ok {
      NothingLackingWhereCreated(was, created, widened, made, man, models);
      EnteredInSteps(was, created, widened, conn.db, made, man, models);
      AllThere(was, created, widened, man, models, create);
      NothingToAdd(was, created, widened, conn.db, man, create);
      if Clean(conn.dialect, was, man) {
        ToppedUp(conn.dialect, was, created, widened, conn.db, made, man, models, create);
      }
    }
  }

  lemma AddedThenStay(dialect: Dialect, was: Database, indexed: Database, now: Database, man: Manifest)
    requires OnlyAdds(was, indexed) && IndexesStay(dialect, indexed, now, man)
    ensures IndexesStay(dialect, was, now, man)
  {
  }

  /** A listed index whose name is taken by another table, one that no rebuild frees. */
  predicate Taken(dialect: Dialect, db: Database, man: Manifest, e: IndexEntry) {
    && e in man.indexes && e.table in db.tables && !IsTemp(man, e.table)
    && e.name in db.indexes && db.indexes[e.name].table != e.table && Untouched(dialect, man, db.indexes[e.name].table)
  }

  /** It is reported as added, is not, and the same holds of the next call. */
  lemma TakenStays(dialect: Dialect, was: Database, now: Database, man: Manifest, create: bool, e: IndexEntry)
    requires Taken(dialect, was, man, e) && IndexesStay(dialect, was, now, man) && e.table in now.tables
    ensures e in AbsentIndexes(man.indexes, was) && Taken(dialect, now, man, e) && !Current(now, man, create)
  {
    AbsentIndexesExact(man.indexes, was);
    assert !HasIndex(now, e);
  }

  /** Where no rebuild is of its table, a listed index stands as it is listed exactly when its name
      was free or it stood so before: the inspector looks for the name alone. */
  lemma EntryStandsExactly(dialect: Dialect, was: Database, now: Database, man: Manifest, e: IndexEntry)
    requires IndexesEntered(was, now, man) && IndexesStay(dialect, was, now, man)
    requires e in man.indexes && e.table in now.tables
    requires e.name in was.indexes ==> Untouched(dialect, man, was.indexes[e.name].table)
    ensures StandsAs(now, e) <==> e.name in was.indexes ==> was.indexes[e.name] == Index(e.table, e.body)
  {
    if e.name in was.indexes {
      assert now.indexes[e.name] == was.indexes[e.name];
    } else {
      assert StandsAs(now, e);
    }
  }

  /** No two rows of the table agree on the columns of a listed unique index that stands. */
  lemma UniqueEntryHolds(now: Database, e: IndexEntry)
    requires UniquesHold(now) && StandsAs(now, e) && e.body.unique && e.table in now.tables
    ensures Distinct(now.tables[e.table].rows, e.body.columns)
  {
    assert IndexHolds(now, now.indexes[e.name]);
  }

  /** A database is as current with any other index of that name on that table, unique or not. */
  lemma BodiesAreNotSeen(db: Database, man: Manifest, create: bool, n: string, body: IndexBody)
    requires Current(db, man, create) && n in db.indexes
    ensures Current(db.(indexes := db.indexes[n := Index(db.indexes[n].table, body)]), man, create)
  {
    var other := db.(indexes := db.indexes[n := Index(db.indexes[n].table, body)]);
    forall e | e in man.indexes
      ensures HasIndex(other, e)
    {
      assert HasIndex(db, e);
    }
    forall e | e in man.columns
      ensures HasColumn(other, e)
    {
      assert HasColumn(db, e);
    }
    forall e | e in man.checks
      ensures Satisfied(other, e)
    {
      assert Satisfied(db, e);
    }
  }

  /** The constraints of a database that has its tables, columns and indexes. */
  method EvolveToppedUp(conn: Connection, man: Manifest, models: map<string, Model>, create: bool, ghost was: Database) returns (ok: bool, updated: seq<CheckEntry>)
    requires conn.saved.None? && WellFormed(conn.db) && Coherent(man, models) && OnlyAdds(was, conn.db)
    modifies conn
    ensures conn.saved.None? && WellFormed(conn.db) && (old(conn.foreignKeys) ==> conn.foreignKeys)
    ensures RowsKept(was, conn.db, man) && IndexesStay(conn.dialect, was, conn.db, man)
    ensures IndexesEntered(was, old(conn.db), man) ==> IndexesEntered(was, conn.db, man)
    ensures ok && Clean(conn.dialect, old(conn.db), man) && Complete(old(conn.db), man, create) ==> Current(conn.db, man, create)
    ensures Clean(conn.dialect, old(conn.db), man) && Ready(conn.dialect, old(conn.db), man, models) ==> ok
    ensures (ok && updated == []) <==> forall e | e in man.checks :: Satisfied(old(conn.db), e)
    ensures ok && updated == [] ==> conn.db == old(conn.db)
  {
    ghost var indexed := conn.db;
    ok, updated := EvolveCheckConstraints(conn, man, models);
    GrownThenTrimmed(was, indexed, conn.db, man);
    AddedThenStay(conn.dialect, was, indexed, conn.db, man);
    if IndexesEntered(was, indexed, man) {
      EnteredFurther(was, indexed, conn.db, man);
    }
    if ok && Clean(conn.dialect, indexed, man) && Complete(indexed, man, create) {
      Arrived(conn.dialect, was, indexed, conn.db, man, models, create);
    }
  }

  /** `ensure_schema` */
  method EnsureSchema(conn: Connection, man: Manifest, models: map<string, Model>, create: bool) returns (r: Outcome)
    requires conn.saved.None? && WellFormed(conn.db) && Coherent(man, models)
    modifies conn
    ensures conn.saved.None? && WellFormed(conn.db) && (old(conn.foreignKeys) ==> conn.foreignKeys)
    ensures RowsKept(old(conn.db), conn.db, man) && IndexesStay(conn.dialect, old(conn.db), conn.db, man)
    ensures r.Finished? && Clean(conn.dialect, old(conn.db), man) ==> Current(conn.db, man, create)
    ensures Repairable(conn.dialect, old(conn.db), man, models, create) ==> r.Finished?
    ensures r == Finished(NOTHING) <==> Current(old(conn.db), man, create)
    ensures r == Finished(NOTHING) ==> conn.db == old(conn.db)
    ensures r.Finished? ==> Additions(old(conn.db), man, create, r.report.createdTables, r.report.addedColumns, r.report.addedIndexes)
    ensures r.Finished? ==> IndexesEntered(old(conn.db), conn.db, man)
  {
    ghost var was := conn.db;
    var ok, made, columns, indexes := TopUp(conn, man, models, create);
    if !ok {
      OnlyAddsKeeps(conn.dialect, was, conn.db, man);
      return Raised;
    }
    var updated;
    ok, updated := EvolveToppedUp(conn, man, models, create, was);
    r := if ok then Finished(Report(made, columns, indexes, updated)) else Raised;
  }

  /** Boot and then boot again: a repairable database arrives, and the second call reports four
      empty lists and leaves it alone; an index whose name is taken is reported as added by both
      calls, and is there after neither. */
  method EnsureTwice(conn: Connection, man: Manifest, models: map<string, Model>, create: bool) returns (first: Outcome, second: Outcome, ghost between: Database)
    requires conn.saved.None? && WellFormed(conn.db) && Coherent(man, models)
    modifies conn
    ensures Repairable(conn.dialect, old(conn.db), man, models, create) ==> first.Finished?
    ensures first.Finished? && Clean(conn.dialect, old(conn.db), man) ==>
              Current(between, man, create) && second == Finished(NOTHING) && conn.db == between
    ensures RowsKept(old(conn.db), between, man)
    ensures forall e | Taken(conn.dialect, old(conn.db), man, e) ::
              && (first.Finished? ==> e in first.report.addedIndexes) && !Current(between, man, create)
              && (second.Finished? ==> e in second.report.addedIndexes) && !Current(conn.db, man, create)
  {
    ghost var was := conn.db;
    first := EnsureSchema(conn, man, models, create);
    between := conn.db;
    second := EnsureSchema(conn, man, models, create);
    forall e | Taken(conn.dialect, was, man, e)
      ensures e in AbsentIndexes(man.indexes, was) && !Current(between, man, create)
      ensures e in AbsentIndexes(man.indexes, between) && !Current(conn.db, man, create)
    {
      TakenStays(conn.dialect, was, between, man, create, e);
      TakenStays(conn.dialect, between, conn.db, man, create, e);
    }
  }
}
