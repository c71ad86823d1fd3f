/** The whole `model_routes` migration: what it reaches, what it keeps, and the one schema it can
    never get past (backend/models/model_route_migrate.py, lines 260-303). */
module ModelRouteSchema {
  import opened Basics
  import opened CheckText
  import opened Databases
  import opened TableRebuild
  import opened ModelRouteMigrate

  /** The declaring model: it has the columns the migration names, lacks the retired one, and no
      constraint of it spells the retired provider. */
  predicate RouteModel(m: Model) {
    RouteShape(m) && CurrentCheck() in m.shape.checks && NoneStale(m)
  }

  predicate RouteShape(m: Model) {
    && !m.quoted && m.shape.foreignKeys == [] && ModelColumns(m)
    && "name" in m.shape.columns && "provider" in m.shape.columns && "path" in m.shape.columns
    && (forall n | n in m.indexes :: forall c | c in m.indexes[n].columns :: c in m.shape.columns)
  }

  predicate NoneStale(m: Model) {
    forall k | k in m.shape.checks :: !StaleCheck(k)
  }

  /** The part of it that is about columns. */
  predicate ModelColumns(m: Model) {
    (forall c | c in METADATA :: c in m.shape.columns) && RETIRED_COLUMN !in m.shape.columns
  }

  lemma RetiredIsNotMetadata()
    ensures RETIRED_COLUMN !in METADATA
  {
  }

  predicate LacksMetadata(db: Database) {
    exists c | c in METADATA :: c !in Columns(db)
  }

  /** The case the boot order cannot handle: the rebuild that refreshes the constraint selects
      columns that are only added after it. */
  predicate Blocked(dialect: Dialect, db: Database) {
    dialect.SQLite? && Stale(db) && LacksMetadata(db)
  }

  /** Nothing left to do. */
  predicate Current(db: Database) {
    TABLE in db.tables ==>
      && "name" in Columns(db) && "provider" in Columns(db)
      && !SomeRetired(Rows(db)) && !Stale(db) && !LacksMetadata(db) && RETIRED_COLUMN !in Columns(db)
  }

  // ------------------------------------------------------------------------- what is kept

  /** Row by row, every value of a column that is there (or about to be added) is the old one
      after the rewrite. */
  ghost predicate Faithful(rows: seq<Row>, t: Table) {
    && |t.rows| == |rows|
    && (forall i | 0 <= i < |rows| :: forall c | c in t.shape.columns || c in METADATA :: Cell(t.rows[i], c) == Cell(Rewritten(rows[i]), c))
  }

  predicate OthersKept(was: Database, now: Database) {
    forall u | u in was.tables && u != TABLE && u != TempName(TABLE) ::
      u in now.tables && now.tables[u].rows == was.tables[u].rows && now.tables[u].shape.columns == was.tables[u].shape.columns
  }

  lemma FaithfulRewritten(db: Database)
    requires TABLE in db.tables
    ensures Faithful(Rows(db), RewrittenDb(db).tables[TABLE]) && OthersKept(db, RewrittenDb(db))
    ensures WellFormed(db) && CanRewrite(db) ==> WellFormed(RewrittenDb(db))
  {
    var now := RewrittenDb(db);
    if WellFormed(db) && CanRewrite(db) {
      if !SomeRetired(Rows(db)) {
        NothingToRewrite(db);
      } else {
        forall u | u in now.tables
          ensures RowsWithin(now.tables[u])
        {
          assert RowsWithin(db.tables[u]);
          if u == TABLE {
            RewrittenWithin(db.tables[TABLE]);
          }
        }
      }
    }
  }

  lemma RewrittenWithin(t: Table)
    requires RowsWithin(t) && "provider" in t.shape.columns && "path" in t.shape.columns
    ensures RowsWithin(t.(rows := Mapped(t.rows, Rewritten)))
  {
    var rows := Mapped(t.rows, Rewritten);
    forall r | r in rows
      ensures forall c | c in r :: c in t.shape.columns
    {
      var i :| 0 <= i < |rows| && rows[i] == r;
      assert t.rows[i] in t.rows;
    }
  }

  lemma FaithfulRebuilt(rows: seq<Row>, was: Database, now: Database, m: Model)
    requires TABLE in was.tables && Rebuildable(was, m, TABLE) && IsRebuilt(was, now, m, TABLE)
    requires Faithful(rows, was.tables[TABLE]) && forall c | c in METADATA :: c in m.shape.columns
    ensures TABLE in now.tables && Faithful(rows, now.tables[TABLE]) && OthersKept(was, now)
    ensures now.tables[TABLE].shape.columns == m.shape.columns && now.tables[TABLE].shape.checks == m.shape.checks
  {
    forall i, c | 0 <= i < |rows| && (c in m.shape.columns || c in METADATA)
      ensures Cell(now.tables[TABLE].rows[i], c) == Cell(Rewritten(rows[i]), c)
    {
      RebuildKeepsRows(was, now, m, TABLE, i, c);
    }
  }

  lemma FaithfulWidened(rows: seq<Row>, was: Database, added: seq<string>)
    requires TABLE in was.tables && Faithful(rows, was.tables[TABLE]) && (forall c | c in added :: c in METADATA)
    ensures Faithful(rows, WithColumns(was, added).tables[TABLE]) && OthersKept(was, WithColumns(was, added))
    ensures WellFormed(was) ==> WellFormed(WithColumns(was, added))
  {
    var now := WithColumns(was, added);
    if WellFormed(was) {
      forall u | u in now.tables
        ensures RowsWithin(now.tables[u])
      {
        assert RowsWithin(was.tables[u]);
      }
    }
  }

  lemma FaithfulWithout(rows: seq<Row>, was: Database, column: string)
    requires TABLE in was.tables && Faithful(rows, was.tables[TABLE]) && column !in METADATA
    ensures Faithful(rows, WithoutColumn(was, TABLE, column).tables[TABLE]) && OthersKept(was, WithoutColumn(was, TABLE, column))
    ensures WellFormed(was) ==> WellFormed(WithoutColumn(was, TABLE, column))
  {
    var now := WithoutColumn(was, TABLE, column);
    if WellFormed(was) {
      forall u | u in now.tables
        ensures RowsWithin(now.tables[u])
      {
        assert RowsWithin(was.tables[u]);
        if u == TABLE {
          forall r | r in now.tables[u].rows
            ensures forall c | c in r :: c in now.tables[u].shape.columns
          {
            var i :| 0 <= i < |now.tables[u].rows| && now.tables[u].rows[i] == r;
            assert was.tables[u].rows[i] in was.tables[u].rows;
          }
        }
      }
    }
  }

  lemma OthersCompose(a: Database, b: Database, c: Database)
    requires OthersKept(a, b) && OthersKept(b, c)
    ensures OthersKept(a, c)
  {
  }

  // ---------------------------------------------------------------------- when it succeeds

  /** The rows fit the model, and the references around the table survive a rebuild. */
  predicate RebuildReady(db: Database, m: Model)
    requires TABLE in db.tables
  {
    var rows := Project(Rows(db), m.shape.columns);
    && Fits(m.shape, rows)
    && (forall n | n in m.indexes && m.indexes[n].unique :: Distinct(rows, m.indexes[n].columns))
    && Integrity(db) && TempUnnamed(db, TABLE) && TargetsKept(db, m, TABLE)
  }

  /** Enough for every step after the rewrite. */
  predicate Reshapable(dialect: Dialect, db: Database, m: Model)
    requires TABLE in db.tables
  {
    match dialect
    case PostgreSQL =>
      && (Stale(db) ==> forall r | r in Rows(db) :: Passes(CurrentCheck(), r))
      && !Targeted(db, TABLE, RETIRED_COLUMN)
    case SQLite =>
      Stale(db) || RETIRED_COLUMN in Columns(db) ==>
        RebuildReady(db, m) && forall c | c in m.shape.columns :: c in Columns(db) || c in METADATA
  }

  predicate Convertible(dialect: Dialect, db: Database, m: Model) {
    TABLE in db.tables ==> CanRewrite(db) && Reshapable(dialect, RewrittenDb(db), m)
  }

  lemma ReadyRebuilds(db: Database, m: Model)
    requires TABLE in db.tables && RouteShape(m) && RebuildReady(db, m)
    requires forall c | c in m.shape.columns :: c in Columns(db)
    ensures Rebuildable(db, m, TABLE)
    ensures forall now | IsRebuilt(db, now, m, TABLE) :: Integrity(now)
  {
    forall now | IsRebuilt(db, now, m, TABLE)
      ensures Integrity(now)
    {
      RebuiltIntegrity(db, now, m, TABLE);
    }
  }

  lemma WiderKeepsKey(was: Database, added: seq<string>, rows: seq<Row>, k: ForeignKey)
    requires TABLE in was.tables && KeyHolds(was, rows, k)
    ensures KeyHolds(WithColumns(was, added), rows, k)
  {
    assert WithColumns(was, added).indexes == was.indexes;
  }

  lemma WiderStaysReady(was: Database, added: seq<string>, m: Model)
    requires TABLE in was.tables && RebuildReady(was, m)
    ensures RebuildReady(WithColumns(was, added), m)
  {
    var now := WithColumns(was, added);
    forall u, k | u in now.tables && k in now.tables[u].shape.foreignKeys
      ensures KeyHolds(now, now.tables[u].rows, k)
    {
      assert KeysHold(was, was.tables[u]);
      WiderKeepsKey(was, added, was.tables[u].rows, k);
    }
    forall u | u in now.tables && u != TempName(TABLE)
      ensures !Names(now.tables[u], TempName(TABLE))
    {
      assert !Names(was.tables[u], TempName(TABLE));
    }
  }

  // ------------------------------------------------------------------- the check, refreshed

  /** A stale constraint under another name that no dropped column takes along. */
  predicate StaleElsewhere(db: Database) {
    TABLE in db.tables && exists k | k in db.tables[TABLE].shape.checks ::
      StaleCheck(k) && k.name != PROVIDER_CHECK
      && !(RETIRED_COLUMN in Columns(db) && k.column == RETIRED_COLUMN)
  }

  lemma RecheckedChecks(db: Database)
    requires TABLE in db.tables
    ensures Rechecked(db).tables.Keys == db.tables.Keys
    ensures CurrentCheck() in Rechecked(db).tables[TABLE].shape.checks
    ensures forall k :: k in Rechecked(db).tables[TABLE].shape.checks && StaleCheck(k) <==>
              k in db.tables[TABLE].shape.checks && StaleCheck(k) && k.name != PROVIDER_CHECK
  {
    CurrentCheckIsCurrent();
  }

  lemma CurrentCheckSurvives()
    ensures CurrentCheck().column != RETIRED_COLUMN
  {
    assert |CurrentCheck().column| != |RETIRED_COLUMN|;
  }

  /** After the second half of `retire_mineru_provider`. */
  ghost predicate Refreshed(dialect: Dialect, was: Database, now: Database, m: Model, rows: seq<Row>) {
    && TABLE in was.tables && TABLE in now.tables && WellFormed(now)
    && Faithful(rows, now.tables[TABLE]) && OthersKept(was, now)
    && if !Stale(was) then now == was
       else if dialect.PostgreSQL? then now == Rechecked(was)
       else now.tables[TABLE].shape.columns == m.shape.columns && now.tables[TABLE].shape.checks == m.shape.checks
  }

  lemma RefreshedByRebuild(was: Database, now: Database, m: Model, rows: seq<Row>)
    requires WellFormed(was) && TABLE in was.tables && RouteShape(m) && Faithful(rows, was.tables[TABLE]) && Stale(was)
    requires Rebuildable(was, m, TABLE) && IsRebuilt(was, now, m, TABLE)
    ensures Refreshed(SQLite, was, now, m, rows)
  {
    RebuildKeepsWellFormed(was, now, m, TABLE);
    FaithfulRebuilt(rows, was, now, m);
  }

  lemma ChecksKeepRows(was: Database, checks: seq<Check>, rows: seq<Row>)
    requires WellFormed(was) && TABLE in was.tables && Faithful(rows, was.tables[TABLE])
    ensures var now := WithChecks(was, TABLE, checks);
      WellFormed(now) && Faithful(rows, now.tables[TABLE]) && OthersKept(was, now)
  {
    forall u | u in was.tables
      ensures RowsWithin(WithChecks(was, TABLE, checks).tables[u])
    {
      assert RowsWithin(was.tables[u]);
    }
  }

  lemma RefreshedByRecheck(was: Database, m: Model, rows: seq<Row>)
    requires WellFormed(was) && TABLE in was.tables && Faithful(rows, was.tables[TABLE]) && Stale(was)
    ensures Refreshed(PostgreSQL, was, Rechecked(was), m, rows)
  {
    ChecksKeepRows(was, ChecksWithout(was.tables[TABLE].shape.checks, PROVIDER_CHECK) + [CurrentCheck()], rows);
  }

  lemma BlockedCannotRebuild(dialect: Dialect, db: Database, m: Model)
    requires RouteShape(m) && Blocked(dialect, db)
    ensures !Rebuildable(db, m, TABLE)
  {
    var c :| c in METADATA && c !in Columns(db);
  }

  lemma ReshapableRefreshes(db: Database, m: Model)
    requires TABLE in db.tables && RouteShape(m) && Reshapable(SQLite, db, m) && Stale(db) && !LacksMetadata(db)
    ensures Rebuildable(db, m, TABLE)
    ensures forall now | IsRebuilt(db, now, m, TABLE) :: Integrity(now)
    ensures Integrity(db)
  {
    ReadyRebuilds(db, m);
  }

  method Refresh(conn: Connection, models: map<string, Model>, ghost rows: seq<Row>) returns (ok: bool)
    requires conn.saved.None? && WellFormed(conn.db) && TABLE in conn.db.tables
    requires TABLE in models && RouteShape(models[TABLE]) && Faithful(rows, conn.db.tables[TABLE])
    modifies conn
    ensures conn.saved.None? && (old(conn.foreignKeys) ==> conn.foreignKeys)
    ensures conn.db == old(conn.db) || Refreshed(conn.dialect, old(conn.db), conn.db, models[TABLE], rows)
    ensures ok ==> Refreshed(conn.dialect, old(conn.db), conn.db, models[TABLE], rows)
    ensures Blocked(conn.dialect, old(conn.db)) ==> !ok && conn.db == old(conn.db)
    ensures !Blocked(conn.dialect, old(conn.db)) && Reshapable(conn.dialect, old(conn.db), models[TABLE]) ==> ok
    ensures !Stale(old(conn.db)) ==> ok && conn.db == old(conn.db)
  {
    ghost var was := conn.db;
    ghost var m := models[TABLE];
    var change;
    ok, change := RefreshCheck(conn, models);
    if Stale(was) {
      if conn.dialect.PostgreSQL? {
        RefreshedByRecheck(was, m, rows);
      } else {
        if ok || conn.db != was {
          RefreshedByRebuild(was, conn.db, m, rows);
        }
        if LacksMetadata(was) {
          BlockedCannotRebuild(conn.dialect, was, m);
        } else if Reshapable(conn.dialect, was, m) {
          ReshapableRefreshes(was, m);
        }
      }
    }
  }

  // ------------------------------------------------------------- the retired column, dropped

  predicate GoesWithColumn(db: Database, k: Check) {
    RETIRED_COLUMN in Columns(db) && k.column == RETIRED_COLUMN
  }

  /** After `retire_api_key_env`. */
  ghost predicate ColumnRetired(dialect: Dialect, was: Database, now: Database, m: Model, rows: seq<Row>) {
    && TABLE in was.tables && TABLE in now.tables && WellFormed(now)
    && Faithful(rows, now.tables[TABLE]) && OthersKept(was, now)
    && if RETIRED_COLUMN !in Columns(was) then now == was
       else if dialect.PostgreSQL? then now == WithoutColumn(was, TABLE, RETIRED_COLUMN)
       else now.tables[TABLE].shape.columns == m.shape.columns && now.tables[TABLE].shape.checks == m.shape.checks
  }

  lemma RetiredByRebuild(was: Database, now: Database, m: Model, rows: seq<Row>)
    requires WellFormed(was) && TABLE in was.tables && RETIRED_COLUMN in Columns(was) && Faithful(rows, was.tables[TABLE])
    requires Rebuildable(was, m, TABLE) && IsRebuilt(was, now, m, TABLE) && forall c | c in METADATA :: c in m.shape.columns
    ensures ColumnRetired(SQLite, was, now, m, rows)
  {
    RebuildKeepsWellFormed(was, now, m, TABLE);
    FaithfulRebuilt(rows, was, now, m);
  }

  predicate CanRetire(dialect: Dialect, db: Database, m: Model)
    requires TABLE in db.tables
  {
    match dialect
    case PostgreSQL => !Targeted(db, TABLE, RETIRED_COLUMN)
    case SQLite => RETIRED_COLUMN in Columns(db) ==> RebuildReady(db, m) && forall c | c in m.shape.columns :: c in Columns(db)
  }

  method Retire(conn: Connection, models: map<string, Model>, ghost rows: seq<Row>) returns (ok: bool)
    requires conn.saved.None? && WellFormed(conn.db) && TABLE in conn.db.tables
    requires TABLE in models && RouteShape(models[TABLE]) && Faithful(rows, conn.db.tables[TABLE])
    modifies conn
    ensures conn.saved.None? && (old(conn.foreignKeys) ==> conn.foreignKeys)
    ensures conn.db == old(conn.db) || ColumnRetired(conn.dialect, old(conn.db), conn.db, models[TABLE], rows)
    ensures ok ==> ColumnRetired(conn.dialect, old(conn.db), conn.db, models[TABLE], rows)
    ensures CanRetire(conn.dialect, old(conn.db), models[TABLE]) ==> ok
    ensures RETIRED_COLUMN !in Columns(old(conn.db)) ==> ok && conn.db == old(conn.db)
  {
    ghost var was := conn.db;
    ghost var m := models[TABLE];
    var changed;
    ok, changed := RetireApiKeyEnv(conn, models);
    if RETIRED_COLUMN in Columns(was) {
      if conn.dialect.PostgreSQL? {
        FaithfulWithout(rows, was, RETIRED_COLUMN);
      } else {
        if ok || conn.db != was {
          RetiredByRebuild(was, conn.db, m, rows);
        }
        if CanRetire(conn.dialect, was, m) {
          ReadyRebuilds(was, m);
        }
      }
    }
  }

  // -------------------------------------------------------------------- everything in order

  lemma MetadataDistinct()
    ensures AllDistinct(METADATA)
  {
  }

  lemma RetirableAfterAdding(dialect: Dialect, was: Database, refreshed: Database, m: Model, rows: seq<Row>)
    requires TABLE in was.tables && ModelColumns(m) && Refreshed(dialect, was, refreshed, m, rows)
    requires Reshapable(dialect, was, m)
    ensures CanRetire(dialect, WithColumns(refreshed, Lacking(METADATA, refreshed)), m)
  {
    var added := Lacking(METADATA, refreshed);
    var widened := WithColumns(refreshed, added);
    RetiredIsNotMetadata();
    match dialect
    case PostgreSQL =>
      forall u | u in widened.tables
        ensures widened.tables[u].shape.foreignKeys == was.tables[u].shape.foreignKeys
      {
      }
    case SQLite =>
      if RETIRED_COLUMN in Columns(widened) {
        assert refreshed == was && RETIRED_COLUMN in Columns(was);
        WiderStaysReady(was, added, m);
      }
  }

  lemma ColumnsAfterwards(dialect: Dialect, refreshed: Database, now: Database, m: Model, rows: seq<Row>)
    requires TABLE in refreshed.tables && ModelColumns(m)
    requires ColumnRetired(dialect, WithColumns(refreshed, Lacking(METADATA, refreshed)), now, m, rows)
    ensures !LacksMetadata(now) && RETIRED_COLUMN !in Columns(now)
  {
    RetiredIsNotMetadata();
    var widened := WithColumns(refreshed, Lacking(METADATA, refreshed));
    assert forall c | c in METADATA :: c in widened.tables[TABLE].shape.columns;
  }

  function ChecksOf(db: Database): seq<Check> {
    if TABLE in db.tables then db.tables[TABLE].shape.checks else []
  }

  /** The constraints a refreshed PostgreSQL table still has that are stale. */
  lemma StaleRefreshed(was: Database, refreshed: Database, m: Model, rows: seq<Row>, k: Check)
    requires TABLE in was.tables && Refreshed(PostgreSQL, was, refreshed, m, rows)
    ensures k in ChecksOf(refreshed) && StaleCheck(k) <==> k in ChecksOf(was) && StaleCheck(k) && k.name != PROVIDER_CHECK
    ensures Stale(was) ==> CurrentCheck() in ChecksOf(refreshed)
  {
    if Stale(was) {
      RecheckedChecks(was);
    }
  }

  lemma ChecksWithoutColumn(dialect: Dialect, refreshed: Database, now: Database, m: Model, rows: seq<Row>, k: Check)
    requires TABLE in refreshed.tables && dialect.PostgreSQL?
    requires ColumnRetired(dialect, WithColumns(refreshed, Lacking(METADATA, refreshed)), now, m, rows)
    ensures k in ChecksOf(now) <==> k in ChecksOf(refreshed) && !GoesWithColumn(refreshed, k)
  {
    RetiredIsNotMetadata();
    var widened := WithColumns(refreshed, Lacking(METADATA, refreshed));
    assert RETIRED_COLUMN in Columns(widened) <==> RETIRED_COLUMN in Columns(refreshed);
  }

  predicate LeftStale(was: Database, k: Check) {
    k in ChecksOf(was) && StaleCheck(k) && k.name != PROVIDER_CHECK && !GoesWithColumn(was, k)
  }

  lemma LeftStaleIsStale(was: Database, now: Database)
    requires TABLE in was.tables && TABLE in now.tables
    requires forall k :: k in ChecksOf(now) && StaleCheck(k) <==> LeftStale(was, k)
    ensures Stale(now) <==> StaleElsewhere(was)
  {
    if Stale(now) {
      var k :| k in ChecksOf(now) && StaleCheck(k);
      assert LeftStale(was, k);
    }
    if StaleElsewhere(was) {
      var k :| k in ChecksOf(was) && LeftStale(was, k);
      assert k in ChecksOf(now) && StaleCheck(k);
    }
  }

  lemma StaleAfterwardsPostgres(was: Database, refreshed: Database, now: Database, m: Model, rows: seq<Row>)
    requires TABLE in was.tables && Refreshed(PostgreSQL, was, refreshed, m, rows)
    requires ColumnRetired(PostgreSQL, WithColumns(refreshed, Lacking(METADATA, refreshed)), now, m, rows)
    ensures Stale(now) <==> StaleElsewhere(was)
  {
    forall k
      ensures k in ChecksOf(now) && StaleCheck(k) <==> LeftStale(was, k)
    {
      StaleRefreshed(was, refreshed, m, rows, k);
      ChecksWithoutColumn(PostgreSQL, refreshed, now, m, rows, k);
      assert GoesWithColumn(refreshed, k) <==> GoesWithColumn(was, k);
    }
    LeftStaleIsStale(was, now);
  }

  lemma CheckAfterwardsPostgres(was: Database, refreshed: Database, now: Database, m: Model, rows: seq<Row>)
    requires TABLE in was.tables && Refreshed(PostgreSQL, was, refreshed, m, rows) && Stale(was)
    requires ColumnRetired(PostgreSQL, WithColumns(refreshed, Lacking(METADATA, refreshed)), now, m, rows)
    ensures CurrentCheck() in ChecksOf(now)
  {
    CurrentCheckSurvives();
    StaleRefreshed(was, refreshed, m, rows, CurrentCheck());
    ChecksWithoutColumn(PostgreSQL, refreshed, now, m, rows, CurrentCheck());
  }

  lemma StaleAfterwardsSQLite(was: Database, refreshed: Database, now: Database, m: Model, rows: seq<Row>)
    requires TABLE in was.tables && NoneStale(m) && Refreshed(SQLite, was, refreshed, m, rows)
    requires ColumnRetired(SQLite, WithColumns(refreshed, Lacking(METADATA, refreshed)), now, m, rows)
    ensures !Stale(now)
    ensures Stale(was) ==> ChecksOf(now) == m.shape.checks
  {
    var widened := WithColumns(refreshed, Lacking(METADATA, refreshed));
    assert ChecksOf(widened) == ChecksOf(refreshed);
    assert Stale(was) || ChecksOf(refreshed) == ChecksOf(was);
  }

  predicate Named(db: Database) {
    "name" in Columns(db) && "provider" in Columns(db)
  }

  lemma NamedAfterwards(dialect: Dialect, was: Database, refreshed: Database, now: Database, m: Model, rows: seq<Row>)
    requires TABLE in was.tables && Refreshed(dialect, was, refreshed, m, rows) && Named(was)
    requires "name" in m.shape.columns && "provider" in m.shape.columns
    requires ColumnRetired(dialect, WithColumns(refreshed, Lacking(METADATA, refreshed)), now, m, rows)
    ensures Named(now)
  {
    assert "name" != RETIRED_COLUMN && "provider" != RETIRED_COLUMN;
  }

  lemma NoRetiredAfterwards(rows: seq<Row>, t: Table)
    requires Faithful(rows, t) && "provider" in t.shape.columns
    ensures !SomeRetired(t.rows)
  {
    forall r | r in t.rows
      ensures !Retired(r)
    {
      var i :| 0 <= i < |rows| && t.rows[i] == r;
      assert Cell(r, "provider") == Cell(Rewritten(rows[i]), "provider");
      RewrittenCells(rows[i], "provider");
    }
  }

  /** What the three steps after the rewrite arrive at. */
  ghost predicate Reshaped(dialect: Dialect, was: Database, now: Database, m: Model, rows: seq<Row>) {
    && TABLE in now.tables
    && !LacksMetadata(now) && RETIRED_COLUMN !in Columns(now)
    && (Stale(now) <==> dialect.PostgreSQL? && StaleElsewhere(was))
    && (Stale(was) ==> CurrentCheck() in ChecksOf(now))
    && (Named(was) ==> Named(now))
  }

  lemma StepsReshape(dialect: Dialect, was: Database, refreshed: Database, now: Database, m: Model, rows: seq<Row>)
    requires TABLE in was.tables && RouteModel(m) && Refreshed(dialect, was, refreshed, m, rows)
    requires ColumnRetired(dialect, WithColumns(refreshed, Lacking(METADATA, refreshed)), now, m, rows)
    ensures Reshaped(dialect, was, now, m, rows)
  {
    ColumnsAfterwards(dialect, refreshed, now, m, rows);
    if Named(was) {
      NamedAfterwards(dialect, was, refreshed, now, m, rows);
    }
    match dialect
    case PostgreSQL =>
      StaleAfterwardsPostgres(was, refreshed, now, m, rows);
      if Stale(was) {
        CheckAfterwardsPostgres(was, refreshed, now, m, rows);
      }
    case SQLite =>
      StaleAfterwardsSQLite(was, refreshed, now, m, rows);
  }

  /** Nothing to refresh, add or drop. */
  predicate InShape(db: Database) {
    !Stale(db) && !LacksMetadata(db) && RETIRED_COLUMN !in Columns(db)
  }

  lemma NothingToWiden(db: Database)
    requires TABLE in db.tables && !LacksMetadata(db)
    ensures WithColumns(db, Lacking(METADATA, db)) == db
  {
    SomeOrNone(Lacking(METADATA, db));
    assert db.tables[TABLE].shape.columns + [] == db.tables[TABLE].shape.columns;
    assert db.tables[TABLE := db.tables[TABLE]] == db.tables;
  }

  method AddAndRetire(conn: Connection, models: map<string, Model>, ghost rows: seq<Row>) returns (ok: bool)
    requires conn.saved.None? && WellFormed(conn.db) && TABLE in conn.db.tables
    requires TABLE in models && RouteShape(models[TABLE]) && Faithful(rows, conn.db.tables[TABLE])
    modifies conn
    ensures conn.saved.None? && WellFormed(conn.db) && (old(conn.foreignKeys) ==> conn.foreignKeys)
    ensures TABLE in conn.db.tables && Faithful(rows, conn.db.tables[TABLE]) && OthersKept(old(conn.db), conn.db)
    ensures ok ==> ColumnRetired(conn.dialect, WithColumns(old(conn.db), Lacking(METADATA, old(conn.db))), conn.db, models[TABLE], rows)
    ensures CanRetire(conn.dialect, WithColumns(old(conn.db), Lacking(METADATA, old(conn.db))), models[TABLE]) ==> ok
    ensures !LacksMetadata(old(conn.db)) && RETIRED_COLUMN !in Columns(old(conn.db)) ==> ok && conn.db == old(conn.db)
  {
    ghost var was := conn.db;
    if !LacksMetadata(was) {
      NothingToWiden(was);
    }
    MetadataDistinct();
    var added := AddMetadataColumns(conn, METADATA);
    FaithfulWidened(rows, was, added);
    ghost var widened := conn.db;
    ok := Retire(conn, models, rows);
    OthersCompose(was, widened, conn.db);
  }

  method Reshape(conn: Connection, models: map<string, Model>, ghost rows: seq<Row>) returns (ok: bool)
    requires conn.saved.None? && WellFormed(conn.db) && TABLE in conn.db.tables
    requires TABLE in models && RouteModel(models[TABLE]) && Faithful(rows, conn.db.tables[TABLE])
    modifies conn
    ensures conn.saved.None? && WellFormed(conn.db) && (old(conn.foreignKeys) ==> conn.foreignKeys)
    ensures TABLE in conn.db.tables && Faithful(rows, conn.db.tables[TABLE]) && OthersKept(old(conn.db), conn.db)
    ensures ok ==> Reshaped(conn.dialect, old(conn.db), conn.db, models[TABLE], rows)
    ensures Blocked(conn.dialect, old(conn.db)) ==> !ok && conn.db == old(conn.db)
    ensures !Blocked(conn.dialect, old(conn.db)) && Reshapable(conn.dialect, old(conn.db), models[TABLE]) ==> ok
    ensures InShape(old(conn.db)) ==> ok && conn.db == old(conn.db)
  {
    ghost var was := conn.db;
    ghost var m := models[TABLE];
    ok := Refresh(conn, models, rows);
    if !ok {
      return;
    }
    ghost var refreshed := conn.db;
    if Reshapable(conn.dialect, was, m) {
      RetirableAfterAdding(conn.dialect, was, refreshed, m, rows);
    }
    ok := AddAndRetire(conn, models, rows);
    OthersCompose(was, refreshed, conn.db);
    if ok {
      StepsReshape(conn.dialect, was, refreshed, conn.db, m, rows);
    }
  }

  // -------------------------------------------------------------------------- ensure_schema

  datatype Report = Report(rewritten: seq<Value>, dropped: set<string>, added: set<string>)

  datatype Outcome = Raised | Finished(report: Report)

  const NOTHING := Report([], {}, {})

  /** Rewriting rows changes no shape, so nothing the later steps look at but the rows. */
  lemma RewriteKeepsShape(dialect: Dialect, db: Database)
    requires TABLE in db.tables
    ensures var now := RewrittenDb(db);
      && Columns(now) == Columns(db) && ChecksOf(now) == ChecksOf(db)
      && (Stale(now) <==> Stale(db)) && (StaleElsewhere(now) <==> StaleElsewhere(db))
      && (Blocked(dialect, now) <==> Blocked(dialect, db)) && (Named(now) <==> Named(db))
  {
  }

  /** A blocked database stays blocked whatever is rewritten, and a second rewrite is no change:
      no later boot gets any further. */
  lemma BlockedForever(dialect: Dialect, db: Database)
    requires TABLE in db.tables && Blocked(dialect, db)
    ensures Blocked(dialect, RewrittenDb(db)) && RewrittenDb(RewrittenDb(db)) == RewrittenDb(db)
    ensures CanRewrite(db) ==> CanRewrite(RewrittenDb(db))
  {
    RewriteKeepsShape(dialect, db);
    RewrittenInSteps(Rows(db));
    NothingToRewrite(RewrittenDb(db));
  }

  /** The state reached is current, but for a constraint that goes by another name. */
  lemma Arrived(dialect: Dialect, was: Database, now: Database, m: Model)
    requires TABLE in was.tables && CanRewrite(was) && Reshaped(dialect, RewrittenDb(was), now, m, Rows(was))
    requires Faithful(Rows(was), now.tables[TABLE])
    ensures Current(now) <==> !(dialect.PostgreSQL? && StaleElsewhere(was))
  {
    RewriteKeepsShape(dialect, was);
    NoRetiredAfterwards(Rows(was), now.tables[TABLE]);
  }

  lemma CurrentRewritesNothing(db: Database)
    requires TABLE in db.tables && Current(db)
    ensures CanRewrite(db) && RewrittenDb(db) == db && InShape(db) && RetiredNames(Rows(db)) == []
  {
    NothingToRewrite(db);
  }

  /** The three steps after the rewrite, said of the database before it. */
  method ReshapeRewritten(conn: Connection, models: map<string, Model>, ghost was: Database) returns (ok: bool)
    requires conn.saved.None? && WellFormed(conn.db) && TABLE in was.tables
    requires CanRewrite(was) && conn.db == RewrittenDb(was)
    requires TABLE in models && RouteModel(models[TABLE])
    modifies conn
    ensures conn.saved.None? && WellFormed(conn.db) && (old(conn.foreignKeys) ==> conn.foreignKeys)
    ensures TABLE in conn.db.tables && OthersKept(was, conn.db) && Faithful(Rows(was), conn.db.tables[TABLE])
    ensures Blocked(conn.dialect, RewrittenDb(was)) ==> !ok && conn.db == RewrittenDb(was)
    ensures !Blocked(conn.dialect, RewrittenDb(was)) && Reshapable(conn.dialect, RewrittenDb(was), models[TABLE]) ==> ok
    ensures ok ==> Reshaped(conn.dialect, RewrittenDb(was), conn.db, models[TABLE], Rows(was))
    ensures InShape(RewrittenDb(was)) ==> ok && conn.db == RewrittenDb(was)
  {
    FaithfulRewritten(was);
    ok := Reshape(conn, models, Rows(was));
    OthersCompose(was, RewrittenDb(was), conn.db);
  }

  /** The steps of `ensure_schema` on a table that exists. */
  method ConvertExisting(conn: Connection, models: map<string, Model>) returns (ok: bool, names: seq<Value>)
    requires conn.saved.None? && WellFormed(conn.db) && TABLE in conn.db.tables
    requires TABLE in models && RouteModel(models[TABLE])
    modifies conn
    ensures conn.saved.None? && WellFormed(conn.db) && (old(conn.foreignKeys) ==> conn.foreignKeys)
    ensures TABLE in conn.db.tables && OthersKept(old(conn.db), conn.db)
    ensures Blocked(conn.dialect, old(conn.db)) ==>
              !ok && conn.db == if CanRewrite(old(conn.db)) then RewrittenDb(old(conn.db)) else old(conn.db)
    ensures !Blocked(conn.dialect, old(conn.db)) && Convertible(conn.dialect, old(conn.db), models[TABLE]) ==> ok
    ensures ok ==> (Current(conn.db) <==> !(conn.dialect.PostgreSQL? && StaleElsewhere(old(conn.db))))
    ensures ok && Stale(old(conn.db)) ==> CurrentCheck() in ChecksOf(conn.db)
    ensures conn.db == old(conn.db) || Faithful(Rows(old(conn.db)), conn.db.tables[TABLE])
    ensures ok ==> Faithful(Rows(old(conn.db)), conn.db.tables[TABLE]) && names == RetiredNames(Rows(old(conn.db)))
    ensures Current(old(conn.db)) ==> ok && names == [] && conn.db == old(conn.db)
  {
    ghost var was := conn.db;
    FaithfulRewritten(was);
    ok, names := RewriteRows(conn);
    if ok {
      ok := ReshapeRewritten(conn, models, was);
    }
    RewriteKeepsShape(conn.dialect, was);
    if Current(was) {
      CurrentRewritesNothing(was);
    }
    if ok {
      Arrived(conn.dialect, was, conn.db, models[TABLE]);
    }
  }

  lemma NothingBetween(columns: set<string>)
    ensures columns - columns == {}
  {
  }

  /** `ensure_schema` */
  method EnsureSchema(conn: Connection, models: map<string, Model>) returns (r: Outcome)
    requires conn.saved.None? && WellFormed(conn.db)
    requires TABLE in models && RouteModel(models[TABLE])
    modifies conn
    ensures conn.saved.None? && WellFormed(conn.db) && (old(conn.foreignKeys) ==> conn.foreignKeys)
    ensures TABLE !in old(conn.db).tables ==> r == Finished(NOTHING) && conn.db == old(conn.db)
    ensures Blocked(conn.dialect, old(conn.db)) ==>
              r.Raised? && conn.db == if CanRewrite(old(conn.db)) then RewrittenDb(old(conn.db)) else old(conn.db)
    ensures !Blocked(conn.dialect, old(conn.db)) && Convertible(conn.dialect, old(conn.db), models[TABLE]) ==> r.Finished?
    ensures r.Finished? ==> (Current(conn.db) <==> !(conn.dialect.PostgreSQL? && StaleElsewhere(old(conn.db))))
    ensures r.Finished? && Stale(old(conn.db)) ==> CurrentCheck() in ChecksOf(conn.db)
    ensures TABLE in old(conn.db).tables ==>
              && TABLE in conn.db.tables && OthersKept(old(conn.db), conn.db)
              && (conn.db == old(conn.db) || Faithful(Rows(old(conn.db)), conn.db.tables[TABLE]))
              && (r.Finished? ==> Faithful(Rows(old(conn.db)), conn.db.tables[TABLE]))
    ensures Current(old(conn.db)) ==> r == Finished(NOTHING) && conn.db == old(conn.db)
    ensures r.Finished? ==> r.report == Report(
                RetiredNames(Rows(old(conn.db))), Columns(old(conn.db)) - Columns(conn.db), Columns(conn.db) - Columns(old(conn.db)))
  {
    var columnsBefore := ColumnsPresent(conn.db, TABLE);
    if TABLE !in conn.db.tables {
      return Finished(NOTHING);
    }
    var ok, names := ConvertExisting(conn, models);
    if !ok {
      return Raised;
    }
    var columnsAfter := ColumnsPresent(conn.db, TABLE);
    NothingBetween(columnsBefore);
    r := Finished(Report(names, columnsBefore - columnsAfter, columnsAfter - columnsBefore));
  }

  /** Boot and boot again. A schema that was converted is left alone; a blocked one raises both
      times, with the row rewrite committed by the first and nothing else ever changed. */
  method EnsureTwice(conn: Connection, models: map<string, Model>) returns (first: Outcome, second: Outcome, ghost between: Database)
    requires conn.saved.None? && WellFormed(conn.db)
    requires TABLE in models && RouteModel(models[TABLE])
    modifies conn
    ensures first.Finished? && !(conn.dialect.PostgreSQL? && StaleElsewhere(old(conn.db))) ==>
              Current(between) && second == Finished(NOTHING) && conn.db == between
    ensures Blocked(conn.dialect, old(conn.db)) && CanRewrite(old(conn.db)) ==>
              first.Raised? && second.Raised? && between == RewrittenDb(old(conn.db)) && conn.db == between
  {
    ghost var was := conn.db;
    first := EnsureSchema(conn, models);
    between := conn.db;
    if Blocked(conn.dialect, was) {
      BlockedForever(conn.dialect, was);
    }
    second := EnsureSchema(conn, models);
  }
}
