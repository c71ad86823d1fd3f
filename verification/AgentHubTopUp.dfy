/** Missing tables, columns and indexes (backend/models/agent_hub_migrate.py, lines 187-216, 310-327). */
module AgentHubTopUp {
  import opened Basics
  import opened CheckText
  import opened Databases
  import opened TableRebuild
  import opened AgentHubSchema

  // ------------------------------------------------------------------------- only additions

  predicate Extended(a: Table, b: Table) {
    && b == a.(shape := a.shape.(columns := b.shape.columns))
    && (forall c | c in a.shape.columns :: c in b.shape.columns)
  }

  /** Every table, row, constraint and index that was there still is. */
  predicate OnlyAdds(was: Database, now: Database) {
    && (forall u | u in was.tables :: u in now.tables && Extended(was.tables[u], now.tables[u]))
    && (forall n | n in was.indexes :: n in now.indexes && now.indexes[n] == was.indexes[n])
  }

  lemma OnlyAddsCompose(a: Database, b: Database, c: Database)
    requires OnlyAdds(a, b) && OnlyAdds(b, c)
    ensures OnlyAdds(a, c)
  {
    forall u | u in a.tables
      ensures u in c.tables && Extended(a.tables[u], c.tables[u])
    {
      assert Extended(a.tables[u], b.tables[u]) && Extended(b.tables[u], c.tables[u]);
    }
  }

  // --------------------------------------------------------------------------------- tables

  function OnTable(table: string, bodies: map<string, IndexBody>): map<string, Index> {
    map n | n in bodies :: Index(table, bodies[n])
  }

  function Created(db: Database, table: string, m: Model): Database {
    Database(db.tables[table := Table(m.shape, [])], db.indexes + OnTable(table, m.indexes))
  }

  predicate Creatable(db: Database, table: string, m: Model) {
    && table !in db.tables
    && (forall n | n in m.indexes :: n !in db.indexes && forall c | c in m.indexes[n].columns :: c in m.shape.columns)
  }

  method CreateModelIndexes(conn: Connection, table: string, bodies: map<string, IndexBody>) returns (ok: bool)
    modifies conn`db
    ensures conn.db.tables == old(conn.db).tables
    ensures forall n | n in old(conn.db).indexes :: n in conn.db.indexes && conn.db.indexes[n] == old(conn.db).indexes[n]
    ensures forall n | n in conn.db.indexes && n !in old(conn.db).indexes :: conn.db.indexes[n].table == table
    ensures ok <==> forall n | n in bodies :: n !in old(conn.db).indexes && CanIndex(old(conn.db), table, bodies[n])
    ensures ok ==> conn.db.indexes == old(conn.db).indexes + OnTable(table, bodies)
  {
    ghost var was := conn.db;
    var pending := bodies.Keys;
    while pending != {}
      invariant pending <= bodies.Keys && conn.db.tables == was.tables
      invariant conn.db.indexes.Keys == was.indexes.Keys + (bodies.Keys - pending)
      invariant forall n | n in was.indexes :: conn.db.indexes[n] == was.indexes[n]
      invariant forall n | n in bodies && n !in pending ::
                  n !in was.indexes && conn.db.indexes[n] == Index(table, bodies[n]) && CanIndex(was, table, bodies[n])
    {
      var n :| n in pending;
      ok := conn.CreateIndex(n, Index(table, bodies[n]));
      if !ok {
        return;
      }
      pending := pending - {n};
    }
    ok := true;
  }

  /** `CREATE TABLE`, then its indexes, as `create_all` issues them. */
  method CreateModelTable(conn: Connection, table: string, m: Model) returns (ok: bool)
    requires WellFormed(conn.db)
    modifies conn`db
    ensures WellFormed(conn.db) && OnlyAdds(old(conn.db), conn.db)
    ensures ok <==> Creatable(old(conn.db), table, m)
    ensures ok ==> conn.db == Created(old(conn.db), table, m)
  {
    ok := conn.CreateTable(table, m.shape);
    if ok {
      ok := CreateModelIndexes(conn, table, m.indexes);
    }
  }

  /** The listed tables a database lacks, in the manifest's order. */
  function Absent(tables: seq<string>, db: Database): seq<string> {
    if tables == [] then []
    else
      var t := tables[|tables| - 1];
      Absent(tables[..|tables| - 1], db) + if t in db.tables then [] else [t]
  }

  lemma {:induction false} AbsentExact(tables: seq<string>, db: Database)
    ensures forall t :: t in Absent(tables, db) <==> t in tables && !(t in db.tables)
    decreases |tables|
  {
    if tables != [] {
      var before := tables[..|tables| - 1];
      AbsentExact(before, db);
      assert tables == before + [tables[|tables| - 1]];
    }
  }

  predicate TablesCreated(was: Database, now: Database, made: seq<string>, models: map<string, Model>)
    requires forall t | t in made :: t in models
  {
    && now.tables.Keys == was.tables.Keys + (set t | t in made)
    && (forall u | u in now.tables :: now.tables[u] == if u in made then Table(models[u].shape, []) else was.tables[u])
  }

  predicate DeclaresIndex(made: seq<string>, models: map<string, Model>, n: string)
    requires forall t | t in made :: t in models
  {
    exists t | t in made :: n in models[t].indexes
  }

  predicate IndexesCreated(was: Database, now: Database, made: seq<string>, models: map<string, Model>)
    requires forall t | t in made :: t in models
  {
    && (forall n | n in was.indexes :: n in now.indexes && now.indexes[n] == was.indexes[n])
    && (forall t, n | t in made && n in models[t].indexes :: n in now.indexes && now.indexes[n] == Index(t, models[t].indexes[n]))
    && (forall n | n in now.indexes :: n in was.indexes || DeclaresIndex(made, models, n))
  }

  /** Exactly these tables were created, each as its model declares it, indexes included. */
  predicate IsCreated(was: Database, now: Database, made: seq<string>, models: map<string, Model>)
    requires forall t | t in made :: t in models
  {
    TablesCreated(was, now, made, models) && IndexesCreated(was, now, made, models)
  }

  /** A foreign key to a table that is not there stops PostgreSQL, not SQLite. */
  predicate ParentsKnown(dialect: Dialect, db: Database, made: seq<string>, models: map<string, Model>) {
    dialect.PostgreSQL? ==> forall t | t in made && t in models ::
      forall k | k in models[t].shape.foreignKeys :: k.table in db.tables || k.table in made
  }

  /** The declared index names are still free. */
  predicate IndexNamesOpen(db: Database, made: seq<string>, models: map<string, Model>) {
    forall t, n | t in made && t in models && n in models[t].indexes :: n !in db.indexes
  }

  predicate Openable(db: Database, made: seq<string>, models: map<string, Model>) {
    IndexNamesUnique(models) && IndexColumnsDeclared(models) && IndexNamesOpen(db, made, models)
  }

  lemma NextCreatable(was: Database, db: Database, made: seq<string>, k: nat, models: map<string, Model>)
    requires k < |made| && (forall t | t in made :: t in models && t !in was.tables)
    requires AllDistinct(made)
    requires IsCreated(was, db, made[..k], models)
    requires Openable(was, made, models)
    ensures Creatable(db, made[k], models[made[k]])
  {
    var t := made[k];
    assert t in made && t !in made[..k];
    forall n | n in models[t].indexes
      ensures n !in db.indexes
    {
      assert n !in was.indexes;
      assert IndexOwner(models, t, n);
    }
  }

  lemma NextTables(was: Database, db: Database, made: seq<string>, k: nat, models: map<string, Model>)
    requires k < |made| && (forall t | t in made :: t in models)
    requires TablesCreated(was, db, made[..k], models)
    ensures TablesCreated(was, Created(db, made[k], models[made[k]]), made[..k + 1], models)
  {
    assert made[..k + 1] == made[..k] + [made[k]];
  }

  lemma NextIndexes(was: Database, db: Database, made: seq<string>, k: nat, models: map<string, Model>)
    requires k < |made| && (forall t | t in made :: t in models)
    requires IndexesCreated(was, db, made[..k], models) && Creatable(db, made[k], models[made[k]])
    ensures IndexesCreated(was, Created(db, made[k], models[made[k]]), made[..k + 1], models)
  {
    var now := Created(db, made[k], models[made[k]]);
    CreatedAddsDeclared(db, made[k], models[made[k]]);
    forall t, n | t in made[..k + 1] && n in models[t].indexes
      ensures n in now.indexes && now.indexes[n] == Index(t, models[t].indexes[n])
    {
      assert t in made[..k] || t == made[k];
    }
    forall n | n in now.indexes && n !in was.indexes
      ensures DeclaresIndex(made[..k + 1], models, n)
    {
      DeclaredBefore(made, k, models, n);
      assert n in db.indexes ==> DeclaresIndex(made[..k], models, n);
    }
  }

  lemma DeclaredBefore(made: seq<string>, k: nat, models: map<string, Model>, n: string)
    requires k < |made| && (forall t | t in made :: t in models)
    ensures DeclaresIndex(made[..k], models, n) || n in models[made[k]].indexes ==> DeclaresIndex(made[..k + 1], models, n)
  {
    assert made[..k + 1] == made[..k] + [made[k]];
    assert made[k] in made[..k + 1];
  }

  lemma CreatedAddsDeclared(db: Database, table: string, m: Model)
    requires Creatable(db, table, m)
    ensures forall n | n in db.indexes :: n in Created(db, table, m).indexes && Created(db, table, m).indexes[n] == db.indexes[n]
    ensures forall n | n in m.indexes :: n in Created(db, table, m).indexes && Created(db, table, m).indexes[n] == Index(table, m.indexes[n])
    ensures forall n | n in Created(db, table, m).indexes :: n in db.indexes || n in m.indexes
  {
  }

  lemma {:induction false} AbsentDistinct(tables: seq<string>, db: Database)
    requires AllDistinct(tables)
    ensures AllDistinct(Absent(tables, db))
    decreases |tables|
  {
    if tables != [] {
      var before := tables[..|tables| - 1];
      AbsentDistinct(before, db);
      AbsentExact(before, db);
      assert forall i | 0 <= i < |before| :: tables[i] == before[i];
      assert tables[|tables| - 1] !in before;
    }
  }

  method CreateNext(conn: Connection, models: map<string, Model>, made: seq<string>, k: nat, ghost was: Database) returns (ok: bool)
    requires WellFormed(conn.db) && k < |made|
    requires forall t | t in made :: t in models && t !in was.tables
    requires AllDistinct(made)
    requires IsCreated(was, conn.db, made[..k], models) && OnlyAdds(was, conn.db)
    modifies conn`db
    ensures WellFormed(conn.db) && OnlyAdds(was, conn.db)
    ensures ok ==> IsCreated(was, conn.db, made[..k + 1], models)
    ensures Openable(was, made, models) ==> ok
  {
    ghost var db := conn.db;
    if Openable(was, made, models) {
      NextCreatable(was, db, made, k, models);
    }
    ok := CreateModelTable(conn, made[k], models[made[k]]);
    OnlyAddsCompose(was, db, conn.db);
    if ok {
      NextTables(was, db, made, k, models);
      NextIndexes(was, db, made, k, models);
    }
  }

  method CreateAll(conn: Connection, models: map<string, Model>, made: seq<string>) returns (ok: bool)
    requires WellFormed(conn.db)
    requires forall t | t in made :: t in models && t !in conn.db.tables
    requires AllDistinct(made)
    modifies conn`db
    ensures WellFormed(conn.db) && OnlyAdds(old(conn.db), conn.db)
    ensures ok ==> IsCreated(old(conn.db), conn.db, made, models)
    ensures Openable(old(conn.db), made, models) ==> ok
  {
    ghost var was := conn.db;
    ok := true;
    var k := 0;
    while k < |made| && ok
      invariant 0 <= k <= |made|
      invariant WellFormed(conn.db) && OnlyAdds(was, conn.db)
      invariant ok ==> IsCreated(was, conn.db, made[..k], models)
      invariant Openable(was, made, models) ==> ok
    {
      ok := CreateNext(conn, models, made, k, was);
      k := k + 1;
    }
    assert ok ==> made[..k] == made;
  }

  /** `create_missing_tables` */
  method CreateMissingTables(conn: Connection, man: Manifest, models: map<string, Model>) returns (ok: bool, created: seq<string>)
    requires conn.saved.None? && WellFormed(conn.db) && Coherent(man, models)
    modifies conn`db, conn`saved
    ensures conn.saved.None? && WellFormed(conn.db) && OnlyAdds(old(conn.db), conn.db)
    ensures created == Absent(man.tables, old(conn.db)) && forall t | t in created :: t in models && t !in old(conn.db).tables
    ensures ok ==> IsCreated(old(conn.db), conn.db, created, models)
    ensures ok && created == [] ==> conn.db == old(conn.db)
    ensures !ok && conn.dialect.PostgreSQL? ==> conn.db == old(conn.db)
    ensures ParentsKnown(conn.dialect, old(conn.db), created, models) && IndexNamesOpen(old(conn.db), created, models) ==> ok
  {
    created := Absent(man.tables, conn.db);
    AbsentDistinct(man.tables, conn.db);
    AbsentExact(man.tables, conn.db);
    if created == [] {
      return true, created;
    }
    ghost var was := conn.db;
    conn.BeginDdl();
    ok := ParentsKnown(conn.dialect, conn.db, created, models);
    if ok {
      ok := CreateAll(conn, models, created);
    }
    if ok {
      conn.Commit();
    } else {
      conn.Rollback();
    }
  }

  // -------------------------------------------------------------------------------- columns

  /** The listed columns a database lacks, in the manifest's order. */
  function AbsentColumns(columns: seq<ColumnEntry>, db: Database): seq<ColumnEntry> {
    if columns == [] then []
    else
      var e := columns[|columns| - 1];
      AbsentColumns(columns[..|columns| - 1], db) + if HasColumn(db, e) then [] else [e]
  }

  lemma {:induction false} AbsentColumnsExact(columns: seq<ColumnEntry>, db: Database)
    ensures forall e :: e in AbsentColumns(columns, db) <==> e in columns && !(HasColumn(db, e))
    decreases |columns|
  {
    if columns != [] {
      var before := columns[..|columns| - 1];
      AbsentColumnsExact(before, db);
      assert columns == before + [columns[|columns| - 1]];
    }
  }

  predicate TableWidened(a: Table, b: Table, table: string, columns: seq<ColumnEntry>) {
    && Extended(a, b)
    && (forall c | c in b.shape.columns :: c in a.shape.columns || ColumnEntry(table, c) in columns)
    && (forall e | e in columns && e.table == table :: e.column in b.shape.columns)
  }

  /** Every table has exactly its old columns and the listed ones; nothing else changed. */
  predicate Widened(was: Database, now: Database, columns: seq<ColumnEntry>) {
    && now.indexes == was.indexes && now.tables.Keys == was.tables.Keys
    && (forall u | u in was.tables :: TableWidened(was.tables[u], now.tables[u], u, columns))
  }

  lemma WidenedNext(was: Database, db: Database, columns: seq<ColumnEntry>, k: nat)
    requires k < |columns| && Widened(was, db, columns[..k])
    ensures HasColumn(was, columns[k]) ==> Widened(was, db, columns[..k + 1])
    ensures columns[k].table in db.tables ==> Widened(was, WithColumn(db, columns[k].table, columns[k].column), columns[..k + 1])
  {
    var e := columns[k];
    assert columns[..k + 1] == columns[..k] + [e];
    forall u | u in was.tables
      ensures u != e.table || HasColumn(was, e) ==> TableWidened(was.tables[u], db.tables[u], u, columns[..k + 1])
      ensures u == e.table ==> TableWidened(was.tables[u], WithColumn(db, u, e.column).tables[u], u, columns[..k + 1])
    {
      assert TableWidened(was.tables[u], db.tables[u], u, columns[..k]);
    }
  }

  lemma WidenedKeepsWellFormed(was: Database, now: Database, columns: seq<ColumnEntry>)
    requires Widened(was, now, columns) && WellFormed(was)
    ensures WellFormed(now) && OnlyAdds(was, now)
  {
    forall u | u in now.tables
      ensures RowsWithin(now.tables[u]) && Extended(was.tables[u], now.tables[u])
    {
      assert RowsWithin(was.tables[u]) && TableWidened(was.tables[u], now.tables[u], u, columns);
    }
  }

  lemma StillMissing(was: Database, db: Database, columns: seq<ColumnEntry>, k: nat)
    requires k < |columns| && Widened(was, db, columns[..k]) && !HasColumn(was, columns[k])
    requires AllDistinct(columns)
    ensures columns[k].table in db.tables && columns[k].column !in db.tables[columns[k].table].shape.columns
  {
    var e := columns[k];
    assert TableWidened(was.tables[e.table], db.tables[e.table], e.table, columns[..k]);
    assert ColumnEntry(e.table, e.column) == e && e !in columns[..k];
  }

  method AddNextColumn(conn: Connection, columns: seq<ColumnEntry>, inspector: Database, k: nat, added: seq<ColumnEntry>) returns (added': seq<ColumnEntry>)
    requires k < |columns| && Widened(inspector, conn.db, columns[..k])
    requires added == AbsentColumns(columns[..k], inspector) && (added == [] ==> conn.db == inspector)
    requires AllDistinct(columns)
    modifies conn`db
    ensures added' == AbsentColumns(columns[..k + 1], inspector) && (added' == [] ==> conn.db == inspector)
    ensures Widened(inspector, conn.db, columns[..k + 1])
  {
    var e := columns[k];
    added' := added;
    assert columns[..k + 1][..k] == columns[..k];
    WidenedNext(inspector, conn.db, columns, k);
    if e.table in inspector.tables && e.column !in inspector.tables[e.table].shape.columns {
      StillMissing(inspector, conn.db, columns, k);
      var ok := conn.AddColumn(e.table, e.column);
      added' := added + [e];
    }
  }

  /** The column loop. The inspector is older than every ALTER the loop issues; with no entry
      listed twice that is as good as a fresh one, and no ALTER fails. */
  method AddColumns(conn: Connection, columns: seq<ColumnEntry>, inspector: Database) returns (added: seq<ColumnEntry>)
    requires inspector == conn.db
    requires AllDistinct(columns)
    modifies conn`db
    ensures added == AbsentColumns(columns, old(conn.db))
    ensures Widened(old(conn.db), conn.db, columns)
    ensures added == [] ==> conn.db == old(conn.db)
  {
    added := [];
    var k := 0;
    while k < |columns|
      invariant 0 <= k <= |columns| && added == AbsentColumns(columns[..k], inspector)
      invariant Widened(inspector, conn.db, columns[..k])
      invariant added == [] ==> conn.db == inspector
    {
      added := AddNextColumn(conn, columns, inspector, k, added);
      k := k + 1;
    }
    assert columns[..k] == columns;
  }

  // -------------------------------------------------------------------------------- indexes

  /** The listed indexes a database lacks, in the manifest's order. */
  function AbsentIndexes(indexes: seq<IndexEntry>, db: Database): seq<IndexEntry> {
    if indexes == [] then []
    else
      var e := indexes[|indexes| - 1];
      AbsentIndexes(indexes[..|indexes| - 1], db) + if HasIndex(db, e) then [] else [e]
  }

  lemma {:induction false} AbsentIndexesExact(indexes: seq<IndexEntry>, db: Database)
    ensures forall e :: e in AbsentIndexes(indexes, db) <==> e in indexes && !(HasIndex(db, e))
    decreases |indexes|
  {
    if indexes != [] {
      var before := indexes[..|indexes| - 1];
      AbsentIndexesExact(before, db);
      assert indexes == before + [indexes[|indexes| - 1]];
    }
  }

  /** An index as an entry lists it, on rows that allow it. */
  predicate MadeFor(was: Database, n: string, index: Index, indexes: seq<IndexEntry>) {
    && (exists e | e in indexes :: e.name == n && index == Index(e.table, e.body))
    && CanIndex(was, index.table, index.body)
  }

  /** The same tables, and no index but the listed ones was added, each as it is listed and where
      its name was free. */
  predicate Indexed(was: Database, now: Database, indexes: seq<IndexEntry>) {
    && now.tables == was.tables
    && (forall n | n in was.indexes :: n in now.indexes && now.indexes[n] == was.indexes[n])
    && (forall n | n in now.indexes && n !in was.indexes :: MadeFor(was, n, now.indexes[n], indexes))
    && (forall e | e in indexes && !HasIndex(was, e) :: e.name in now.indexes)
  }

  /** Entries of one name are one entry. */
  predicate NamedOnce(indexes: seq<IndexEntry>, e: IndexEntry) {
    forall f | f in indexes && f.name == e.name :: f == e
  }

  /** Every listed index that was absent, its name free, is there now as it is listed. */
  predicate Entered(was: Database, now: Database, indexes: seq<IndexEntry>) {
    forall e | e in indexes && NamedOnce(indexes, e) && e.name !in was.indexes :: StandsAs(now, e)
  }

  lemma IndexedEnters(was: Database, now: Database, indexes: seq<IndexEntry>)
    requires Indexed(was, now, indexes)
    ensures Entered(was, now, indexes)
    ensures UniquesHold(was) ==> UniquesHold(now)
  {
    forall e | e in indexes && NamedOnce(indexes, e) && e.name !in was.indexes && e.table in now.tables
      ensures StandsAs(now, e)
    {
      assert !HasIndex(was, e);
      assert MadeFor(was, e.name, now.indexes[e.name], indexes);
    }
    if UniquesHold(was) {
      forall n | n in now.indexes
        ensures IndexHolds(now, now.indexes[n])
      {
        assert n in was.indexes || MadeFor(was, n, now.indexes[n], indexes);
        assert n in was.indexes ==> IndexHolds(was, was.indexes[n]);
      }
    }
  }

  /** Every index still to be made can be. */
  predicate IndexesOpen(db: Database, man: Manifest) {
    forall e | e in man.indexes && e.table in db.tables && e.name !in db.indexes :: CanIndex(db, e.table, e.body)
  }

  lemma IndexedNext(was: Database, db: Database, indexes: seq<IndexEntry>, k: nat)
    requires k < |indexes| && Indexed(was, db, indexes[..k])
    ensures HasIndex(was, indexes[k]) || indexes[k].name in db.indexes ==> Indexed(was, db, indexes[..k + 1])
    ensures indexes[k].name !in db.indexes && CanIndex(db, indexes[k].table, indexes[k].body) ==>
              Indexed(was, db.(indexes := db.indexes[indexes[k].name := Index(indexes[k].table, indexes[k].body)]), indexes[..k + 1])
  {
    var e := indexes[k];
    assert indexes[..k + 1] == indexes[..k] + [e];
    assert forall x | x in indexes[..k] :: x in indexes[..k + 1];
    assert e in indexes[..k + 1];
    forall n | n in db.indexes && n !in was.indexes
      ensures MadeFor(was, n, db.indexes[n], indexes[..k + 1])
    {
      assert MadeFor(was, n, db.indexes[n], indexes[..k]);
    }
    if e.name !in db.indexes && CanIndex(db, e.table, e.body) {
      assert MadeFor(was, e.name, Index(e.table, e.body), indexes[..k + 1]);
    }
  }

  lemma StillOpen(was: Database, db: Database, man: Manifest, k: nat)
    requires k < |man.indexes| && IndexesOpen(was, man) && Indexed(was, db, man.indexes[..k]) && man.indexes[k].table in was.tables
    ensures man.indexes[k].name in db.indexes || CanIndex(db, man.indexes[k].table, man.indexes[k].body)
  {
    var e := man.indexes[k];
    assert e in man.indexes;
  }

  lemma AbsentIndexNext(indexes: seq<IndexEntry>, k: nat, db: Database)
    requires k < |indexes|
    ensures AbsentIndexes(indexes[..k + 1], db) ==
              if HasIndex(db, indexes[k]) then AbsentIndexes(indexes[..k], db) else AbsentIndexes(indexes[..k], db) + [indexes[k]]
  {
    assert indexes[..k + 1][..k] == indexes[..k];
  }

  /** One more index, on a table that exists. */
  lemma WithIndexAdds(was: Database, db: Database, name: string, index: Index)
    requires name !in db.indexes && index.table in db.tables
    ensures var now := db.(indexes := db.indexes[name := index]);
      (WellFormed(db) ==> WellFormed(now)) && (OnlyAdds(was, db) ==> OnlyAdds(was, now))
  {
  }

  method AddNextIndex(conn: Connection, man: Manifest, inspector: Database, k: nat, added: seq<IndexEntry>, ghost was: Database)
    returns (ok: bool, added': seq<IndexEntry>)
    requires WellFormed(conn.db) && k < |man.indexes| && Indexed(was, conn.db, man.indexes[..k])
    requires added == AbsentIndexes(man.indexes[..k], was) && (added == [] ==> conn.db == was)
    requires inspector.tables.Keys == was.tables.Keys && inspector.indexes == was.indexes
    modifies conn`db
    ensures WellFormed(conn.db)
    ensures !ok ==> conn.db == old(conn.db)
    ensures ok ==> Indexed(was, conn.db, man.indexes[..k + 1])
    ensures ok ==> added' == AbsentIndexes(man.indexes[..k + 1], was) && (added' == [] ==> conn.db == was)
    ensures IndexesOpen(was, man) ==> ok
    ensures OnlyAdds(was, old(conn.db)) ==> OnlyAdds(was, conn.db)
  {
    var e := man.indexes[k];
    added' := added;
    ok := true;
    AbsentIndexNext(man.indexes, k, was);
    IndexedNext(was, conn.db, man.indexes, k);
    if e.table in inspector.tables && !(e.name in inspector.indexes && inspector.indexes[e.name].table == e.table) {
      if IndexesOpen(was, man) {
        StillOpen(was, conn.db, man, k);
      }
      if e.name !in conn.db.indexes && e.table in conn.db.tables {
        WithIndexAdds(was, conn.db, e.name, Index(e.table, e.body));
      }
      ok := conn.CreateIndexIfNotExists(e.name, Index(e.table, e.body));
      added' := added + [e];
    }
  }

  /** The index loop. */
  method AddIndexes(conn: Connection, man: Manifest, inspector: Database) returns (ok: bool, added: seq<IndexEntry>)
    requires WellFormed(conn.db)
    requires inspector.tables.Keys == conn.db.tables.Keys && inspector.indexes == conn.db.indexes
    modifies conn`db
    ensures WellFormed(conn.db) && OnlyAdds(old(conn.db), conn.db)
    ensures ok ==> Indexed(old(conn.db), conn.db, man.indexes) && added == AbsentIndexes(man.indexes, old(conn.db))
    ensures ok ==> Entered(old(conn.db), conn.db, man.indexes)
    ensures ok && added == [] ==> conn.db == old(conn.db)
    ensures IndexesOpen(old(conn.db), man) ==> ok
  {
    ghost var was := conn.db;
    added := [];
    ok := true;
    var k := 0;
    while k < |man.indexes| && ok
      invariant 0 <= k <= |man.indexes|
      invariant WellFormed(conn.db) && OnlyAdds(was, conn.db)
      invariant ok ==> Indexed(was, conn.db, man.indexes[..k])
      invariant ok ==> added == AbsentIndexes(man.indexes[..k], was) && (added == [] ==> conn.db == was)
      invariant IndexesOpen(was, man) ==> ok
    {
      ok, added := AddNextIndex(conn, man, inspector, k, added, was);
      k := k + 1;
    }
    assert ok ==> man.indexes[..k] == man.indexes;
    if ok {
      IndexedEnters(was, conn.db, man.indexes);
    }
  }
}
