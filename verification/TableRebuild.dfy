/** Rebuilding a SQLite table (backend/models/table_rebuild.py). */
module TableRebuild {
  import opened Basics
  import opened CheckText
  import opened Databases

  const NEW_TABLE_SUFFIX := "__openfish_new"

  function TempName(table: string): (r: string)
    ensures r != table
  {
    table + NEW_TABLE_SUFFIX
  }

  /** `columns_present` */
  function ColumnsPresent(db: Database, table: string): set<string> {
    if table in db.tables then set c | c in db.tables[table].shape.columns else {}
  }

  // --------------------------------------------------------------------- what a rebuild does

  /** The indexes a rebuild leaves alone. */
  function OtherIndexes(db: Database, table: string): map<string, Index> {
    map n | n in db.indexes && db.indexes[n].table != table && db.indexes[n].table != TempName(table) :: db.indexes[n]
  }

  predicate IndexesFit(db: Database, m: Model, table: string)
    requires table in db.tables
  {
    forall n | n in m.indexes && n !in OtherIndexes(db, table) ::
      && (forall c | c in m.indexes[n].columns :: c in m.shape.columns)
      && (m.indexes[n].unique ==> Distinct(Project(db.tables[table].rows, m.shape.columns), m.indexes[n].columns))
  }

  /** When the transaction reaches COMMIT: the table is there and has every column the model
      declares, its rows fit the model's constraints, and so do the indexes still to be created. */
  predicate Rebuildable(db: Database, m: Model, table: string) {
    && table in db.tables
    && (forall c | c in m.shape.columns :: c in db.tables[table].shape.columns)
    && Fits(m.shape, Project(db.tables[table].rows, m.shape.columns))
    && IndexesFit(db, m, table)
  }

  /** The database a committed rebuild leaves: the model's shape over the old rows cut down to
      the model's columns, every other table as it was but for foreign keys that named the
      temporary table, and the model's indexes wherever their names were free. */
  predicate IsRebuilt(was: Database, now: Database, m: Model, table: string)
    requires table in was.tables
  {
    var temp := TempName(table);
    && now.tables.Keys == was.tables.Keys - {temp}
    && now.tables[table] == Retargeted(Table(m.shape, Project(was.tables[table].rows, m.shape.columns)), temp, table)
    && (forall u | u in was.tables && u != table && u != temp :: now.tables[u] == Retargeted(was.tables[u], temp, table))
    && now.indexes.Keys == OtherIndexes(was, table).Keys + m.indexes.Keys
    && (forall n | n in now.indexes :: now.indexes[n] ==
          if n in OtherIndexes(was, table) then was.indexes[n] else Index(table, m.indexes[n]))
  }

  // ------------------------------------------------------------------------ the transaction

  /** The database once the new table carries the old name, before its indexes exist. */
  function Swapped(db: Database, m: Model, table: string): Database
    requires table in db.tables
  {
    var temp := TempName(table);
    var tables := (db.tables - {temp})[table := Table(m.shape, Project(db.tables[table].rows, m.shape.columns))];
    Database(map u | u in tables :: Retargeted(tables[u], temp, table), OtherIndexes(db, table))
  }

  /** After the copy: the temporary table holds the rows beside the old table. */
  function Copied(db: Database, m: Model, table: string): Database
    requires table in db.tables
  {
    var temp := TempName(table);
    var cleared := if temp in db.tables then Dropped(db, temp) else db;
    cleared.(tables := cleared.tables[temp := Table(m.shape, Project(db.tables[table].rows, m.shape.columns))])
  }

  lemma SwappedTables(db: Database, m: Model, table: string)
    requires table in db.tables
    ensures Renamed(Dropped(Copied(db, m, table), table), TempName(table), table).tables == Swapped(db, m, table).tables
  {
    var temp := TempName(table);
    var copied := Copied(db, m, table);
    var moved := (copied.tables - {table} - {temp})[table := copied.tables[temp]];
    assert moved == (db.tables - {temp})[table := copied.tables[temp]];
  }

  lemma SwappedIndexes(db: Database, m: Model, table: string)
    requires table in db.tables && WellFormed(db)
    ensures Renamed(Dropped(Copied(db, m, table), table), TempName(table), table).indexes == OtherIndexes(db, table)
  {
    assert Dropped(Copied(db, m, table), table).indexes == OtherIndexes(db, table);
  }

  predicate CanSwap(db: Database, m: Model, table: string) {
    && table in db.tables
    && (forall c | c in m.shape.columns :: c in db.tables[table].shape.columns)
    && Fits(m.shape, Project(db.tables[table].rows, m.shape.columns))
  }

  lemma CopyWorks(db: Database, m: Model, table: string)
    ensures var temp := TempName(table);
      var cleared := if temp in db.tables then Dropped(db, temp) else db;
      var made := cleared.(tables := cleared.tables[temp := Table(m.shape, [])]);
      CanCopy(made, temp, m.shape.columns, table) <==> CanSwap(db, m, table)
  {
    if table in db.tables {
      var rows := Project(db.tables[table].rows, m.shape.columns);
      assert [] + rows == rows;
    }
  }

  method SwapIn(conn: Connection, m: Model, table: string) returns (ok: bool)
    requires !conn.foreignKeys && WellFormed(conn.db)
    modifies conn`db
    ensures ok <==> CanSwap(old(conn.db), m, table)
    ensures ok ==> conn.db == Swapped(old(conn.db), m, table)
  {
    var temp := TempName(table);
    ghost var was := conn.db;
    ok := conn.DropTableIfExists(temp);
    ok := conn.CreateTable(temp, m.shape);
    CopyWorks(was, m, table);
    ok := conn.InsertSelect(temp, m.shape.columns, table);
    if !ok {
      return;
    }
    assert conn.db == Copied(was, m, table) by {
      var rows := Project(was.tables[table].rows, m.shape.columns);
      assert [] + rows == rows;
    }
    ok := conn.DropTable(table);
    ok := conn.RenameTable(temp, table);
    SwappedTables(was, m, table);
    SwappedIndexes(was, m, table);
  }

  method CreateIndexes(conn: Connection, m: Model, table: string) returns (ok: bool)
    requires table in conn.db.tables
    modifies conn`db
    ensures conn.db.tables == old(conn.db.tables)
    ensures ok <==> forall n | n in m.indexes && n !in old(conn.db.indexes) :: CanIndex(old(conn.db), table, m.indexes[n])
    ensures ok ==> conn.db.indexes.Keys == old(conn.db.indexes).Keys + m.indexes.Keys
    ensures ok ==> forall n | n in conn.db.indexes :: conn.db.indexes[n] ==
                     if n in old(conn.db.indexes) then old(conn.db.indexes)[n] else Index(table, m.indexes[n])
  {
    ghost var was := conn.db;
    var pending := m.indexes.Keys;
    while pending != {}
      invariant pending <= m.indexes.Keys
      invariant conn.db.tables == was.tables
      invariant conn.db.indexes.Keys == was.indexes.Keys + (m.indexes.Keys - pending)
      invariant forall n | n in conn.db.indexes :: conn.db.indexes[n] ==
                  if n in was.indexes then was.indexes[n] else Index(table, m.indexes[n])
      invariant forall n | n in m.indexes && n !in pending && n !in was.indexes :: CanIndex(was, table, m.indexes[n])
    {
      var n :| n in pending;
      ok := conn.CreateIndexIfNotExists(n, Index(table, m.indexes[n]));
      if !ok {
        return;
      }
      pending := pending - {n};
    }
    ok := true;
  }

  lemma RebuildableInSteps(db: Database, m: Model, table: string)
    ensures Rebuildable(db, m, table) <==>
              && CanSwap(db, m, table)
              && forall n | n in m.indexes && n !in OtherIndexes(db, table) :: CanIndex(Swapped(db, m, table), table, m.indexes[n])
  {
  }

  lemma SwappedAndIndexed(was: Database, now: Database, m: Model, table: string)
    requires table in was.tables
    requires now.tables == Swapped(was, m, table).tables
    requires now.indexes.Keys == OtherIndexes(was, table).Keys + m.indexes.Keys
    requires forall n | n in now.indexes :: now.indexes[n] ==
               if n in OtherIndexes(was, table) then OtherIndexes(was, table)[n] else Index(table, m.indexes[n])
    ensures IsRebuilt(was, now, m, table)
  {
  }

  /** Raised before the commit, done, or raised by the check that runs after it. */
  datatype Outcome = RaisedBefore | Done | RaisedAfter

  method SwapInAndIndex(conn: Connection, m: Model, table: string) returns (ok: bool)
    requires !conn.foreignKeys && WellFormed(conn.db)
    modifies conn`db
    ensures ok <==> Rebuildable(old(conn.db), m, table)
    ensures ok ==> IsRebuilt(old(conn.db), conn.db, m, table)
  {
    ghost var was := conn.db;
    RebuildableInSteps(was, m, table);
    ok := SwapIn(conn, m, table);
    if ok {
      ok := CreateIndexes(conn, m, table);
      if ok {
        SwappedAndIndexed(was, conn.db, m, table);
      }
    }
  }

  /** `rebuild_table` */
  method RebuildTable(conn: Connection, models: map<string, Model>, table: string) returns (outcome: Outcome)
    requires conn.saved.None? && WellFormed(conn.db)
    modifies conn
    ensures conn.saved.None?
    ensures conn.foreignKeys == if table !in models || models[table].quoted then old(conn.foreignKeys) else true
    ensures outcome.RaisedBefore? <==> table !in models || models[table].quoted || !Rebuildable(old(conn.db), models[table], table)
    ensures outcome.RaisedBefore? ==> conn.db == old(conn.db)
    ensures !outcome.RaisedBefore? ==> IsRebuilt(old(conn.db), conn.db, models[table], table)
    ensures outcome.RaisedAfter? ==> !Integrity(conn.db)
    ensures outcome.Done? ==> Integrity(conn.db)
  {
    if table !in models || models[table].quoted {
      return RaisedBefore;
    }
    var m := models[table];
    ghost var was := conn.db;
    conn.PragmaForeignKeys(false);
    conn.Begin();
    var ok := SwapInAndIndex(conn, m, table);
    if ok {
      conn.Commit();
    } else {
      conn.Rollback();
    }
    conn.PragmaForeignKeys(true);
    if !ok {
      return RaisedBefore;
    }
    var violations := conn.ForeignKeyCheck();
    outcome := if violations then RaisedAfter else Done;
  }

  // -------------------------------------------------------------------- what a rebuild keeps

  /** Every surviving cell keeps its value, row by row; a dropped column is gone. */
  lemma RebuildKeepsRows(was: Database, now: Database, m: Model, table: string, i: nat, c: string)
    requires table in was.tables && IsRebuilt(was, now, m, table) && i < |was.tables[table].rows|
    ensures |now.tables[table].rows| == |was.tables[table].rows|
    ensures Cell(now.tables[table].rows[i], c) == if c in m.shape.columns then Cell(was.tables[table].rows[i], c) else Null
  {
    var rows := Project(was.tables[table].rows, m.shape.columns);
    assert rows[i] == Projected(was.tables[table].rows[i], m.shape.columns);
  }

  lemma ProjectedWithin(t: Table, m: Model)
    ensures RowsWithin(Table(m.shape, Project(t.rows, m.shape.columns)))
  {
    var kept := Project(t.rows, m.shape.columns);
    forall r | r in kept
      ensures forall c | c in r :: c in m.shape.columns
    {
      var i :| 0 <= i < |kept| && kept[i] == r;
      assert r == Projected(t.rows[i], m.shape.columns);
    }
  }

  lemma RebuildKeepsWellFormed(was: Database, now: Database, m: Model, table: string)
    requires WellFormed(was) && table in was.tables && IsRebuilt(was, now, m, table)
    ensures WellFormed(now)
  {
    forall u | u in now.tables
      ensures RowsWithin(now.tables[u])
    {
      if u != table {
        assert RowsWithin(was.tables[u]);
      } else {
        ProjectedWithin(was.tables[table], m);
      }
    }
    forall n | n in now.indexes
      ensures now.indexes[n].table in now.tables
    {
      if n in OtherIndexes(was, table) {
        assert was.indexes[n].table in was.tables;
      }
    }
  }

  predicate Names(t: Table, table: string) {
    exists k | k in t.shape.foreignKeys :: k.table == table
  }

  lemma RetargetNothing(t: Table, was: string, now: string)
    requires !Names(t, was)
    ensures Retargeted(t, was, now) == t
  {
    var keys := t.shape.foreignKeys;
    assert Retarget(keys, was, now) == keys by {
      assert forall i | 0 <= i < |keys| :: keys[i] in keys;
    }
  }

  lemma ProjectTwice(rows: seq<Row>, columns: seq<string>)
    ensures Project(Project(rows, columns), columns) == Project(rows, columns)
  {
    forall i | 0 <= i < |rows|
      ensures Projected(Projected(rows[i], columns), columns) == Projected(rows[i], columns)
    {
    }
  }

  lemma RetargetedOnce(t: Table, was: string, now: string)
    requires was != now
    ensures Retargeted(Retargeted(t, was, now), was, now) == Retargeted(t, was, now)
  {
    var keys := t.shape.foreignKeys;
    var once := Retarget(keys, was, now);
    assert Retarget(once, was, now) == once;
  }

  lemma RebuiltTable(was: Database, now: Database, m: Model, table: string)
    requires table in was.tables && IsRebuilt(was, now, m, table)
    requires !Names(Table(m.shape, []), TempName(table))
    ensures now.tables[table] == Table(m.shape, Project(was.tables[table].rows, m.shape.columns))
    ensures Project(now.tables[table].rows, m.shape.columns) == now.tables[table].rows
  {
    var t := Table(m.shape, Project(was.tables[table].rows, m.shape.columns));
    assert !Names(t, TempName(table)) by {
      assert forall k | k in t.shape.foreignKeys :: k in Table(m.shape, []).shape.foreignKeys;
    }
    RetargetNothing(t, TempName(table), table);
    ProjectTwice(was.tables[table].rows, m.shape.columns);
  }

  lemma OtherIndexesKept(was: Database, now: Database, m: Model, table: string)
    requires table in was.tables && IsRebuilt(was, now, m, table)
    ensures OtherIndexes(now, table) == OtherIndexes(was, table)
  {
  }

  lemma StableTables(was: Database, now: Database, again: Database, m: Model, table: string)
    requires table in was.tables && IsRebuilt(was, now, m, table) && IsRebuilt(now, again, m, table)
    requires !Names(Table(m.shape, []), TempName(table))
    ensures again.tables == now.tables
  {
    RebuiltTable(was, now, m, table);
    RebuiltTable(now, again, m, table);
    forall u | u in now.tables && u != table
      ensures again.tables[u] == now.tables[u]
    {
      RetargetedOnce(was.tables[u], TempName(table), table);
    }
  }

  lemma StableIndexes(was: Database, now: Database, again: Database, m: Model, table: string)
    requires table in was.tables && IsRebuilt(was, now, m, table) && IsRebuilt(now, again, m, table)
    ensures again.indexes == now.indexes
  {
    OtherIndexesKept(was, now, m, table);
  }

  /** A rebuilt table can be rebuilt, and rebuilds to itself. */
  lemma RebuildIsStable(was: Database, now: Database, again: Database, m: Model, table: string)
    requires Rebuildable(was, m, table) && IsRebuilt(was, now, m, table)
    requires !Names(Table(m.shape, []), TempName(table))
    ensures Rebuildable(now, m, table)
    ensures IsRebuilt(now, again, m, table) ==> again == now
  {
    RebuiltTable(was, now, m, table);
    OtherIndexesKept(was, now, m, table);
    if IsRebuilt(now, again, m, table) {
      StableTables(was, now, again, m, table);
      StableIndexes(was, now, again, m, table);
    }
  }

  // -------------------------------------------------------------------- referential integrity

  lemma ParentKept(rows: seq<Row>, columns: seq<string>, target: string, v: Value)
    requires target in columns
    ensures IsParent(Project(rows, columns), target, v) <==> IsParent(rows, target, v)
  {
    var kept := Project(rows, columns);
    assert forall i | 0 <= i < |rows| :: kept[i] in kept && rows[i] in rows && Cell(kept[i], target) == Cell(rows[i], target);
  }

  /** The column will be one that foreign keys may refer to: the model declares it and declares it
      unique, or makes a unique index for it under a name that is free. */
  predicate KeyedByModel(was: Database, m: Model, table: string, column: string) {
    && column in m.shape.columns
    && ([column] in m.shape.uniques
        || exists n | n in m.indexes && n !in OtherIndexes(was, table) :: m.indexes[n] == IndexBody([column], true))
  }

  lemma KeyedAfter(was: Database, now: Database, m: Model, table: string, column: string)
    requires table in was.tables && IsRebuilt(was, now, m, table)
    ensures Keyed(now, table, column) <==> KeyedByModel(was, m, table, column)
  {
    if n :| n in now.indexes && now.indexes[n] == Index(table, IndexBody([column], true)) {
      assert n !in OtherIndexes(was, table) && m.indexes[n] == IndexBody([column], true);
    }
    if n :| n in m.indexes && n !in OtherIndexes(was, table) && m.indexes[n] == IndexBody([column], true) {
      assert now.indexes[n] == Index(table, IndexBody([column], true));
    }
  }

  lemma OthersStayKeyed(was: Database, now: Database, m: Model, table: string, u: string, column: string)
    requires table in was.tables && IsRebuilt(was, now, m, table)
    requires u in was.tables && u != table && u != TempName(table)
    ensures Keyed(now, u, column) <==> Keyed(was, u, column)
  {
    if n :| n in was.indexes && was.indexes[n] == Index(u, IndexBody([column], true)) {
      assert n in OtherIndexes(was, table) && now.indexes[n] == was.indexes[n];
    }
  }

  /** A foreign key into the rebuilt table survives exactly when its target column stays a key. */
  lemma KeyIntoRebuilt(was: Database, now: Database, m: Model, table: string, rows: seq<Row>, key: ForeignKey)
    requires table in was.tables && IsRebuilt(was, now, m, table)
    requires KeyHolds(was, rows, key) && key.table != TempName(table)
    ensures KeyHolds(now, rows, key) <==> (key.table == table ==> KeyedByModel(was, m, table, key.target))
  {
    if key.table == table {
      KeyedAfter(was, now, m, table, key.target);
      if key.target in m.shape.columns {
        ParentsKept(was, now, m, table, rows, key);
      }
    } else if key.table in was.tables {
      OthersStayKeyed(was, now, m, table, key.table, key.target);
      assert now.tables[key.table].rows == was.tables[key.table].rows;
    }
  }

  lemma ParentsKept(was: Database, now: Database, m: Model, table: string, rows: seq<Row>, key: ForeignKey)
    requires table in was.tables && IsRebuilt(was, now, m, table) && key.target in m.shape.columns
    ensures ParentsFound(now.tables[table].rows, rows, key) <==> ParentsFound(was.tables[table].rows, rows, key)
  {
    forall v
      ensures IsParent(now.tables[table].rows, key.target, v) <==> IsParent(was.tables[table].rows, key.target, v)
    {
      ParentKept(was.tables[table].rows, m.shape.columns, key.target, v);
    }
  }

  /** No other table points at a column the rebuild drops or leaves without uniqueness. */
  predicate TargetsKept(was: Database, m: Model, table: string) {
    forall u | u in was.tables && u != table && u != TempName(table) :: TargetsOf(was, m, table, was.tables[u])
  }

  predicate TargetsOf(was: Database, m: Model, table: string, t: Table) {
    forall k | k in t.shape.foreignKeys :: k.table == table ==> KeyedByModel(was, m, table, k.target)
  }

  /** No table other than a leftover one names the temporary table. */
  predicate TempUnnamed(was: Database, table: string) {
    forall u | u in was.tables && u != TempName(table) :: !Names(was.tables[u], TempName(table))
  }

  lemma OtherKeysKept(was: Database, now: Database, m: Model, table: string, u: string)
    requires table in was.tables && IsRebuilt(was, now, m, table) && TempUnnamed(was, table)
    requires u in was.tables && u != table && u != TempName(table) && KeysHold(was, was.tables[u])
    ensures now.tables[u] == was.tables[u]
    ensures KeysHold(now, now.tables[u]) <==> TargetsOf(was, m, table, was.tables[u])
  {
    RetargetNothing(was.tables[u], TempName(table), table);
    forall k | k in was.tables[u].shape.foreignKeys
      ensures KeyHolds(now, now.tables[u].rows, k) <==> (k.table == table ==> KeyedByModel(was, m, table, k.target))
    {
      assert k.table != TempName(table);
      KeyIntoRebuilt(was, now, m, table, was.tables[u].rows, k);
    }
  }

  /** A foreign key the model declares, before the rebuild: it holds of the old rows or, when it
      is to the table itself, its target will be a key and every old row has its parent. */
  predicate ModelKeysHold(was: Database, m: Model, table: string)
    requires table in was.tables
  {
    forall k | k in m.shape.foreignKeys :: ModelKeyHolds(was, m, table, k)
  }

  predicate ModelKeyHolds(was: Database, m: Model, table: string, k: ForeignKey)
    requires table in was.tables
  {
    var rows := was.tables[table].rows;
    if k.table == table then KeyedByModel(was, m, table, k.target) && ParentsFound(rows, rows, k) else KeyHolds(was, rows, k)
  }

  /** The model's foreign keys are on its own columns, and none names the temporary table. */
  predicate OwnKeys(m: Model, table: string) {
    forall k | k in m.shape.foreignKeys :: k.column in m.shape.columns && k.table != TempName(table)
  }

  lemma KeyOfProjected(db: Database, rows: seq<Row>, columns: seq<string>, key: ForeignKey)
    requires key.column in columns
    ensures KeyHolds(db, Project(rows, columns), key) <==> KeyHolds(db, rows, key)
  {
    var kept := Project(rows, columns);
    assert forall i | 0 <= i < |rows| :: kept[i] in kept && rows[i] in rows && Cell(kept[i], key.column) == Cell(rows[i], key.column);
  }

  lemma ModelKeyAfter(was: Database, now: Database, m: Model, table: string, k: ForeignKey)
    requires Rebuildable(was, m, table) && IsRebuilt(was, now, m, table)
    requires k.table != TempName(table)
    ensures KeyHolds(now, was.tables[table].rows, k) <==> ModelKeyHolds(was, m, table, k)
  {
    var rows := was.tables[table].rows;
    if k.table == table {
      KeyedAfter(was, now, m, table, k.target);
      if k.target in m.shape.columns {
        ParentsKept(was, now, m, table, rows, k);
      }
    } else if k.table in was.tables {
      OthersStayKeyed(was, now, m, table, k.table, k.target);
      assert now.tables[k.table].rows == was.tables[k.table].rows;
    }
  }

  lemma OwnKeysAfter(was: Database, now: Database, m: Model, table: string)
    requires Rebuildable(was, m, table) && IsRebuilt(was, now, m, table) && OwnKeys(m, table)
    ensures KeysHold(now, now.tables[table]) <==> ModelKeysHold(was, m, table)
  {
    RebuiltTable(was, now, m, table);
    forall k | k in m.shape.foreignKeys
      ensures KeyHolds(now, now.tables[table].rows, k) <==> ModelKeyHolds(was, m, table, k)
    {
      KeyOfProjected(now, was.tables[table].rows, m.shape.columns, k);
      ModelKeyAfter(was, now, m, table, k);
    }
  }

  lemma OtherTargets(was: Database, now: Database, m: Model, table: string)
    requires table in was.tables && IsRebuilt(was, now, m, table) && TempUnnamed(was, table) && Integrity(was)
    ensures TargetsKept(was, m, table) <==> forall u | u in now.tables && u != table :: KeysHold(now, now.tables[u])
  {
    forall u | u in was.tables && u != table && u != TempName(table)
      ensures KeysHold(now, now.tables[u]) <==> TargetsOf(was, m, table, was.tables[u])
    {
      OtherKeysKept(was, now, m, table, u);
    }
  }

  /** The check that runs after COMMIT passes exactly when, before the call, the old rows met the
      model's own foreign keys and no other table pointed at a column about to go, or about to
      lose its uniqueness. */
  lemma RebuiltIntegrity(was: Database, now: Database, m: Model, table: string)
    requires Rebuildable(was, m, table) && IsRebuilt(was, now, m, table)
    requires Integrity(was) && TempUnnamed(was, table) && OwnKeys(m, table)
    ensures Integrity(now) <==> ModelKeysHold(was, m, table) && TargetsKept(was, m, table)
  {
    OwnKeysAfter(was, now, m, table);
    OtherTargets(was, now, m, table);
    assert Integrity(now) <==>
      KeysHold(now, now.tables[table]) && forall u | u in now.tables && u != table :: KeysHold(now, now.tables[u]);
  }

  /** A column that another table points at and that stops being a key is seen by the check. */
  lemma LostTargetIsSeen(was: Database, now: Database, m: Model, table: string, other: string, k: ForeignKey)
    requires Rebuildable(was, m, table) && IsRebuilt(was, now, m, table)
    requires Integrity(was) && TempUnnamed(was, table) && OwnKeys(m, table)
    requires other in was.tables && other != table && other != TempName(table)
    requires k in was.tables[other].shape.foreignKeys && k.table == table && !KeyedByModel(was, m, table, k.target)
    ensures !Integrity(now)
  {
    RebuiltIntegrity(was, now, m, table);
    assert !TargetsOf(was, m, table, was.tables[other]);
  }

  function Parent(id: string, code: string): Table {
    Table(Shape([id, code], {}, [], [[id], [code]], []), [])
  }

  function Child(p: string, code: string): Table {
    Table(Shape([code], {}, [], [], [ForeignKey(code, p, code)]), [])
  }

  /** The model has `code` no more, or has it no longer unique. */
  function Later(id: string, columns: seq<string>): Model {
    Model(false, Shape(columns, {}, [], [[id]], []), map[])
  }

  /** `q.code` refers to `p.code`, which is unique. */
  lemma PairIsIntact(p: string, q: string, id: string, code: string)
    requires p != q && q != TempName(p)
    ensures var was := Database(map[p := Parent(id, code), q := Child(p, code)], map[]);
      WellFormed(was) && Integrity(was) && TempUnnamed(was, p)
  {
    var was := Database(map[p := Parent(id, code), q := Child(p, code)], map[]);
    var key := ForeignKey(code, p, code);
    assert Parent(id, code).shape.columns[1] == code && Parent(id, code).shape.uniques[1] == [code];
    assert KeyHolds(was, [], key);
  }

  lemma TooLate(p: string, q: string, id: string, code: string, columns: seq<string>) returns (was: Database, m: Model)
    requires p != q && q != TempName(p) && id != code && (columns == [id] || columns == [id, code])
    ensures WellFormed(was) && Integrity(was) && Rebuildable(was, m, p) && !m.quoted && m.shape.columns == columns
    ensures forall now | IsRebuilt(was, now, m, p) :: !Integrity(now)
  {
    was := Database(map[p := Parent(id, code), q := Child(p, code)], map[]);
    m := Later(id, columns);
    PairIsIntact(p, q, id, code);
    assert Parent(id, code).shape.columns[0] == id && Parent(id, code).shape.columns[1] == code;
    var key := ForeignKey(code, p, code);
    assert key in was.tables[q].shape.foreignKeys && [id][0] != [code][0];
    forall now | IsRebuilt(was, now, m, p)
      ensures !Integrity(now)
    {
      LostTargetIsSeen(was, now, m, p, q, key);
    }
  }

  /** Raising is not the same as changing nothing: dropping a column another table points at, or
      only its uniqueness, commits, and only then is the broken reference seen. */
  lemma CheckComesTooLate(dropped: bool) returns (was: Database, m: Model)
    ensures WellFormed(was) && Integrity(was) && Rebuildable(was, m, "p") && !m.quoted
    ensures m.shape.columns == if dropped then ["id"] else ["id", "code"]
    ensures forall now | IsRebuilt(was, now, m, "p") :: !Integrity(now)
  {
    assert |TempName("p")| > |"q"| == |"p"|;
    assert "id" != "code";
    was, m := TooLate("p", "q", "id", "code", if dropped then ["id"] else ["id", "code"]);
  }
}
