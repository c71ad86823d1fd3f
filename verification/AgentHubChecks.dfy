/** CHECK-constraint evolution (backend/models/agent_hub_migrate.py, lines 227-307). */
module AgentHubChecks {
  import opened Basics
  import opened CheckText
  import opened Databases
  import opened TableRebuild
  import opened AgentHubSchema

  // --------------------------------------------------------------------------- PostgreSQL

  predicate Doomed(live: seq<Check>, column: string, name: string) {
    name != "" && exists k | k in live :: k.name == name && Mentions(k.text, column)
  }

  /** The constraints left once every live one that mentions the column has been dropped. */
  function DropMentions(checks: seq<Check>, live: seq<Check>, column: string): (r: seq<Check>)
    ensures forall k :: k in r <==> k in checks && !Doomed(live, column, k.name)
    decreases |live|
  {
    if live == [] then checks
    else
      var item := live[|live| - 1];
      var before := live[..|live| - 1];
      var rest := DropMentions(checks, before, column);
      assert live == before + [item];
      if item.name == "" || !Mentions(item.text, column) then rest else ChecksWithout(rest, item.name)
  }

  function Swapped(checks: seq<Check>, live: seq<Check>, e: CheckEntry): seq<Check> {
    DropMentions(checks, live, e.column) + [Generated(e.name, e.column, e.values)]
  }

  lemma WithChecksTwice(db: Database, table: string, first: seq<Check>, second: seq<Check>)
    requires table in db.tables
    ensures WithChecks(WithChecks(db, table, first), table, second) == WithChecks(db, table, second)
    ensures WithChecks(db, table, db.tables[table].shape.checks) == db
  {
    assert db.tables[table := db.tables[table]] == db.tables;
  }

  method DropNext(conn: Connection, table: string, ghost checks: seq<Check>, live: seq<Check>, column: string, k: nat, ghost was: Database)
    requires table in was.tables && k < |live|
    requires conn.db == WithChecks(was, table, DropMentions(checks, live[..k], column))
    modifies conn`db
    ensures conn.db == WithChecks(was, table, DropMentions(checks, live[..k + 1], column))
  {
    ghost var left := DropMentions(checks, live[..k], column);
    assert live[..k + 1][..k] == live[..k];
    if live[k].name != "" && Mentions(live[k].text, column) {
      WithChecksTwice(was, table, left, ChecksWithout(left, live[k].name));
      var dropped := conn.DropCheckIfExists(table, live[k].name);
    }
  }

  method DropAll(conn: Connection, table: string, live: seq<Check>, column: string)
    requires table in conn.db.tables
    modifies conn`db
    ensures conn.db == WithChecks(old(conn.db), table, DropMentions(old(conn.db).tables[table].shape.checks, live, column))
  {
    ghost var was := conn.db;
    ghost var checks := was.tables[table].shape.checks;
    WithChecksTwice(was, table, checks, checks);
    var k := 0;
    while k < |live|
      invariant 0 <= k <= |live|
      invariant conn.db == WithChecks(was, table, DropMentions(checks, live[..k], column))
    {
      DropNext(conn, table, checks, live, column, k, was);
      k := k + 1;
    }
    assert live[..k] == live;
  }

  /** `_evolve_postgres` */
  method EvolvePostgres(conn: Connection, e: CheckEntry, live: seq<Check>) returns (ok: bool)
    requires conn.saved.None? && e.table in conn.db.tables
    modifies conn
    ensures conn.saved.None? && conn.foreignKeys == old(conn.foreignKeys)
    ensures ok <==> && e.values != []
                    && (forall k | k in old(conn.db).tables[e.table].shape.checks && k.name == e.name :: Doomed(live, e.column, k.name))
                    && (forall r | r in old(conn.db).tables[e.table].rows :: Passes(Generated(e.name, e.column, e.values), r))
    ensures conn.db == if ok then WithChecks(old(conn.db), e.table, Swapped(old(conn.db).tables[e.table].shape.checks, live, e)) else old(conn.db)
  {
    ghost var was := conn.db;
    ghost var left := DropMentions(was.tables[e.table].shape.checks, live, e.column);
    conn.Begin();
    DropAll(conn, e.table, live, e.column);
    ok := conn.AddCheck(e.table, Generated(e.name, e.column, e.values));
    if ok {
      WithChecksTwice(was, e.table, left, left + [Generated(e.name, e.column, e.values)]);
      conn.Commit();
    } else {
      conn.Rollback();
    }
  }

  // ----------------------------------------------------------------------------- one entry

  /** What rewriting one entry's constraint does to the database. */
  predicate Evolved(dialect: Dialect, models: map<string, Model>, was: Database, now: Database, e: CheckEntry) {
    && e.table in was.tables
    && match dialect
       case PostgreSQL =>
         && e.values != []
         && (forall k | k in was.tables[e.table].shape.checks && k.name == e.name :: Doomed(was.tables[e.table].shape.checks, e.column, k.name))
         && now == WithChecks(was, e.table, Swapped(was.tables[e.table].shape.checks, was.tables[e.table].shape.checks, e))
       case SQLite =>
         && e.table in models
         && Rebuildable(was, models[e.table], e.table)
         && IsRebuilt(was, now, models[e.table], e.table)
  }

  /** Before: enough for the rewrite to go through. */
  predicate TableReady(db: Database, m: Model, table: string) {
    && table in db.tables
    && (forall c | c in m.shape.columns :: c in db.tables[table].shape.columns)
    && RowsReady(db, m, table)
  }

  /** The part of it that is about rows and references. */
  predicate RowsReady(db: Database, m: Model, table: string)
    requires table in db.tables
  {
    var rows := Project(db.tables[table].rows, m.shape.columns);
    && Fits(m.shape, rows)
    && (forall n | n in m.indexes && m.indexes[n].unique :: Distinct(rows, m.indexes[n].columns))
    && ModelKeysHold(db, m, table)
    && TempUnnamed(db, table)
    && TargetsKept(db, m, table)
  }

  predicate ConstraintReady(db: Database, e: CheckEntry)
    requires e.table in db.tables
  {
    && (forall k | k in db.tables[e.table].shape.checks && k.name == e.name :: Mentions(k.text, e.column))
    && (forall r | r in db.tables[e.table].rows :: Passes(Generated(e.name, e.column, e.values), r))
  }

  predicate EntryReady(dialect: Dialect, db: Database, models: map<string, Model>, e: CheckEntry) {
    e.table in db.tables && !Satisfied(db, e) ==>
      match dialect
      case PostgreSQL => ConstraintReady(db, e)
      case SQLite => e.table in models && TableReady(db, models[e.table], e.table)
  }

  predicate Ready(dialect: Dialect, db: Database, man: Manifest, models: map<string, Model>) {
    && (dialect.SQLite? ==> Integrity(db))
    && (forall e | e in man.checks :: EntryReady(dialect, db, models, e))
  }

  lemma ReadyIsRebuildable(db: Database, m: Model, table: string)
    requires TableReady(db, m, table)
    requires forall n | n in m.indexes :: forall c | c in m.indexes[n].columns :: c in m.shape.columns
    requires OwnKeys(m, table)
    ensures Rebuildable(db, m, table)
    ensures forall now | IsRebuilt(db, now, m, table) && Integrity(db) :: Integrity(now)
  {
    forall now | IsRebuilt(db, now, m, table) && Integrity(db)
      ensures Integrity(now)
    {
      RebuiltIntegrity(db, now, m, table);
    }
  }

  method EvolveOne(conn: Connection, models: map<string, Model>, e: CheckEntry, live: seq<Check>) returns (ok: bool)
    requires conn.saved.None? && WellFormed(conn.db)
    requires live == LiveChecks(conn.db, e.table)
    requires conn.dialect.PostgreSQL? ==> e.table in conn.db.tables
    modifies conn
    ensures conn.saved.None? && (old(conn.foreignKeys) ==> conn.foreignKeys)
    ensures conn.db == old(conn.db) || Evolved(conn.dialect, models, old(conn.db), conn.db, e)
    ensures ok ==> Evolved(conn.dialect, models, old(conn.db), conn.db, e)
    ensures ok && conn.dialect.SQLite? ==> Integrity(conn.db)
    ensures !ok && conn.dialect.SQLite? ==>
              (e.table !in models || models[e.table].quoted || !Rebuildable(old(conn.db), models[e.table], e.table) || !Integrity(conn.db))
    ensures !ok && conn.dialect.PostgreSQL? && e.name != "" && e.values != [] ==> !ConstraintReady(old(conn.db), e)
  {
    match conn.dialect
    case PostgreSQL =>
      ok := EvolvePostgres(conn, e, live);
    case SQLite =>
      var outcome := RebuildTable(conn, models, e.table);
      ok := outcome.Done?;
  }
}
