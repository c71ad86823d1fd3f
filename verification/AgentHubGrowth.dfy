/** What creating tables and adding columns and indexes does to the conditions the later steps
    of the Agent Hub's migration rely on. */
module AgentHubGrowth {
  import opened CheckText
  import opened Databases
  import opened TableRebuild
  import opened AgentHubSchema
  import opened AgentHubChecks
  import opened AgentHubSteps
  import opened AgentHubTopUp

  /** The first three steps together: the old tables with their rows and indexes, the new ones empty
      and as their models declare them, columns and declared indexes added to either. */
  predicate Grown(was: Database, now: Database, made: seq<string>, models: map<string, Model>)
    requires forall t | t in made :: t in models
  {
    && now.tables.Keys == was.tables.Keys + (set t | t in made)
    && (forall u | u in was.tables && u !in made :: Extended(was.tables[u], now.tables[u]))
    && (forall u | u in made :: u !in was.tables && Extended(Table(models[u].shape, []), now.tables[u]))
    && IndexesGrown(was, now, made, models)
  }

  predicate IndexesGrown(was: Database, now: Database, made: seq<string>, models: map<string, Model>)
    requires forall t | t in made :: t in models
  {
    && (forall n | n in was.indexes :: n in now.indexes && now.indexes[n] == was.indexes[n])
    && (forall u, n | u in made && n in models[u].indexes :: n in now.indexes && now.indexes[n] == Index(u, models[u].indexes[n]))
    && (forall n | n in now.indexes && n !in was.indexes :: DeclaredIndex(models, now.indexes[n].table, n))
  }

  lemma IndexesGrownInSteps(was: Database, created: Database, widened: Database, now: Database, made: seq<string>, man: Manifest, models: map<string, Model>)
    requires forall t | t in made :: t in models
    requires IndexesCreated(was, created, made, models) && widened.indexes == created.indexes
    requires Indexed(widened, now, man.indexes) && ListsTheModels(man, models)
    ensures IndexesGrown(was, now, made, models)
  {
    forall n | n in now.indexes && n !in was.indexes
      ensures DeclaredIndex(models, now.indexes[n].table, n)
    {
      if n in created.indexes {
        assert DeclaresIndex(made, models, n);
        var t :| t in made && n in models[t].indexes;
        assert created.indexes[n] == Index(t, models[t].indexes[n]);
      } else {
        assert MadeFor(widened, n, now.indexes[n], man.indexes);
        var e :| e in man.indexes && e.name == n && now.indexes[n] == Index(e.table, e.body);
        assert DeclaresAs(models[e.table], e);
      }
    }
  }

  lemma GrownInSteps(was: Database, created: Database, widened: Database, now: Database, made: seq<string>, man: Manifest, models: map<string, Model>)
    requires forall t | t in made :: t in models && t !in was.tables
    requires IsCreated(was, created, made, models) && ListsTheModels(man, models)
    requires Widened(created, widened, man.columns) && Indexed(widened, now, man.indexes)
    ensures Grown(was, now, made, models)
  {
    forall u | u in now.tables
      ensures Extended(created.tables[u], now.tables[u])
    {
      assert TableWidened(created.tables[u], widened.tables[u], u, man.columns);
    }
    IndexesGrownInSteps(was, created, widened, now, made, man, models);
  }

  // -------------------------------------------------------------------- indexes as listed

  /** Every listed index that was absent with its name free, or that was there as it is listed, is
      there now as it is listed; and unique indexes are still that. */
  predicate IndexesEntered(was: Database, now: Database, man: Manifest) {
    && (forall e | e in man.indexes && (e.name in was.indexes ==> StandsAs(was, e) && e.table in was.tables) :: StandsAs(now, e))
    && (UniquesHold(was) ==> UniquesHold(now))
  }

  /** With the models declaring what is listed, entries of one name are one entry. */
  lemma ListedOnce(man: Manifest, models: map<string, Model>, e: IndexEntry)
    requires ListsTheModels(man, models) && IndexNamesUnique(models) && e in man.indexes
    ensures NamedOnce(man.indexes, e)
  {
    forall f | f in man.indexes && f.name == e.name
      ensures f == e
    {
      assert DeclaresAs(models[e.table], e) && DeclaresAs(models[f.table], f);
      OneOwner(models, e.table, f.table, e.name);
    }
  }

  lemma CreatedAsListed(was: Database, created: Database, made: seq<string>, man: Manifest, models: map<string, Model>, e: IndexEntry)
    requires forall t | t in made :: t in models
    requires IndexesCreated(was, created, made, models) && ListsTheModels(man, models) && IndexNamesUnique(models)
    requires e in man.indexes && e.name in created.indexes && e.name !in was.indexes
    ensures created.indexes[e.name] == Index(e.table, e.body)
  {
    assert DeclaresIndex(made, models, e.name) && DeclaresAs(models[e.table], e);
    var t :| t in made && e.name in models[t].indexes;
    OneOwner(models, e.table, t, e.name);
  }

  lemma UniquesHoldWhenCreated(was: Database, created: Database, widened: Database, made: seq<string>, man: Manifest, models: map<string, Model>)
    requires forall t | t in made :: t in models && t !in was.tables
    requires IsCreated(was, created, made, models) && Widened(created, widened, man.columns) && WellFormed(was)
    requires UniquesHold(was)
    ensures UniquesHold(widened)
  {
    forall n | n in widened.indexes
      ensures IndexHolds(widened, widened.indexes[n])
    {
      var x := widened.indexes[n];
      if x.table in widened.tables {
        assert TableWidened(created.tables[x.table], widened.tables[x.table], x.table, man.columns);
      }
      if n in was.indexes {
        assert IndexHolds(was, x);
      } else {
        assert DeclaresIndex(made, models, n);
      }
    }
  }

  lemma EnteredInSteps(was: Database, created: Database, widened: Database, now: Database, made: seq<string>, man: Manifest, models: map<string, Model>)
    requires WellFormed(was) && forall t | t in made :: t in models && t !in was.tables
    requires IsCreated(was, created, made, models) && Widened(created, widened, man.columns) && Indexed(widened, now, man.indexes)
    requires ListsTheModels(man, models) && IndexNamesUnique(models)
    ensures IndexesEntered(was, now, man)
  {
    IndexedEnters(widened, now, man.indexes);
    if UniquesHold(was) {
      UniquesHoldWhenCreated(was, created, widened, made, man, models);
    }
    forall e | e in man.indexes && (e.name in was.indexes ==> StandsAs(was, e) && e.table in was.tables)
      ensures StandsAs(now, e)
    {
      ListedOnce(man, models, e);
      if e.name in created.indexes && e.name !in was.indexes {
        CreatedAsListed(was, created, made, man, models, e);
      }
    }
  }

  lemma EnteredFurther(a: Database, b: Database, c: Database, man: Manifest)
    requires IndexesEntered(a, b, man) && IndexesCarried(b, c, man)
    ensures IndexesEntered(a, c, man)
  {
  }

  // --------------------------------------------------------------------- foreign keys

  /** References between tables that were there and tables that were made meet a key. */
  predicate ReferencesMeet(was: Database, made: seq<string>, models: map<string, Model>)
    requires forall t | t in made :: t in models
  {
    && (forall u | u in was.tables :: forall k | k in was.tables[u].shape.foreignKeys ::
          k.table in made ==> MadeKeyed(models[k.table], k.target))
    && (forall t | t in made :: forall k | k in models[t].shape.foreignKeys ::
          k.table in was.tables ==> Keyed(was, k.table, k.target))
  }

  /** A column that foreign keys may refer to once the table is made as its model declares it. */
  predicate MadeKeyed(m: Model, column: string) {
    column in m.shape.columns && ([column] in m.shape.uniques || exists n | n in m.indexes :: m.indexes[n] == IndexBody([column], true))
  }

  lemma KeyedGrown(was: Database, now: Database, made: seq<string>, models: map<string, Model>, table: string, column: string)
    requires forall t | t in made :: t in models
    requires Grown(was, now, made, models)
    requires (table in was.tables && Keyed(was, table, column)) || (table in made && MadeKeyed(models[table], column))
    ensures table in now.tables && Keyed(now, table, column)
  {
    if table in was.tables {
      assert Extended(was.tables[table], now.tables[table]);
      if n :| n in was.indexes && was.indexes[n] == Index(table, IndexBody([column], true)) {
        assert now.indexes[n] == was.indexes[n];
      }
    } else {
      assert Extended(Table(models[table].shape, []), now.tables[table]);
      if n :| n in models[table].indexes && models[table].indexes[n] == IndexBody([column], true) {
        assert now.indexes[n] == Index(table, models[table].indexes[n]);
      }
    }
  }

  lemma KeyGrown(was: Database, now: Database, made: seq<string>, models: map<string, Model>, rows: seq<Row>, k: ForeignKey)
    requires forall t | t in made :: t in models
    requires Grown(was, now, made, models) && KeyHolds(was, rows, k)
    requires k.table in made ==> MadeKeyed(models[k.table], k.target)
    ensures KeyHolds(now, rows, k)
  {
    if k.table in was.tables {
      KeyedGrown(was, now, made, models, k.table, k.target);
      assert Extended(was.tables[k.table], now.tables[k.table]);
    } else if k.table in made {
      KeyedGrown(was, now, made, models, k.table, k.target);
    }
  }

  lemma MadeKeyHolds(was: Database, now: Database, made: seq<string>, man: Manifest, models: map<string, Model>, u: string, k: ForeignKey)
    requires forall t | t in made :: t in models
    requires Grown(was, now, made, models) && ReferencesMeet(was, made, models) && ModelsAgree(man, models)
    requires u in made && k in models[u].shape.foreignKeys
    ensures KeyHolds(now, [], k)
  {
    assert KeyDeclared(man, models, k);
    if k.table in was.tables || k.table in made {
      KeyedGrown(was, now, made, models, k.table, k.target);
    }
  }

  lemma IntegrityGrown(was: Database, now: Database, made: seq<string>, man: Manifest, models: map<string, Model>)
    requires forall t | t in made :: t in models
    requires Grown(was, now, made, models) && ReferencesMeet(was, made, models)
    requires ModelsAgree(man, models) && Integrity(was)
    ensures Integrity(now)
  {
    forall u, k | u in now.tables && k in now.tables[u].shape.foreignKeys
      ensures KeyHolds(now, now.tables[u].rows, k)
    {
      if u in was.tables {
        assert Extended(was.tables[u], now.tables[u]) && KeysHold(was, was.tables[u]);
        KeyGrown(was, now, made, models, was.tables[u].rows, k);
      } else {
        assert Extended(Table(models[u].shape, []), now.tables[u]);
        MadeKeyHolds(was, now, made, man, models, u, k);
      }
    }
  }

  // ------------------------------------------------------------------------- readiness

  lemma KeysOfGrown(was: Database, now: Database, made: seq<string>, models: map<string, Model>, u: string)
    requires forall t | t in made :: t in models
    requires Grown(was, now, made, models) && u in now.tables
    ensures now.tables[u].shape.foreignKeys == if u in was.tables then was.tables[u].shape.foreignKeys else models[u].shape.foreignKeys
  {
    if u in was.tables {
      assert Extended(was.tables[u], now.tables[u]);
    } else {
      assert Extended(Table(models[u].shape, []), now.tables[u]);
    }
  }

  lemma GrownLeavesNames(was: Database, now: Database, made: seq<string>, models: map<string, Model>, table: string)
    requires forall t | t in made :: t in models
    requires IndexesGrown(was, now, made, models) && IndexNamesUnique(models) && table in models
    ensures NamesStayFree(was, now, models[table], table)
  {
    forall n | n in models[table].indexes && n in OtherIndexes(now, table)
      ensures n in OtherIndexes(was, table)
    {
      if n !in was.indexes {
        OneOwner(models, table, now.indexes[n].table, n);
      }
    }
  }

  lemma ModelKeysGrown(was: Database, now: Database, made: seq<string>, man: Manifest, models: map<string, Model>, table: string)
    requires forall t | t in made :: t in models
    requires Grown(was, now, made, models) && ModelsAgree(man, models)
    requires table in models && table in was.tables && table in now.tables && ModelKeysHold(was, models[table], table)
    ensures ModelKeysHold(now, models[table], table)
  {
    assert Extended(was.tables[table], now.tables[table]);
    forall k | k in models[table].shape.foreignKeys
      ensures ModelKeyHolds(now, models[table], table, k)
    {
      assert KeyDeclared(man, models, k) && ModelKeyHolds(was, models[table], table, k);
      if k.table != table {
        KeyGrown(was, now, made, models, was.tables[table].rows, k);
      }
    }
  }

  lemma TargetsGrown(was: Database, now: Database, made: seq<string>, man: Manifest, models: map<string, Model>, table: string)
    requires forall t | t in made :: t in models
    requires Grown(was, now, made, models) && ModelsAgree(man, models)
    requires Listed(man, table) && table in models && TempUnnamed(was, table) && TargetsKept(was, models[table], table)
    ensures TempUnnamed(now, table) && TargetsKept(now, models[table], table)
  {
    ListedTemps(man, table);
    GrownLeavesNames(was, now, made, models, table);
    forall u | u in now.tables && u != TempName(table)
      ensures !Names(now.tables[u], TempName(table)) && (u != table ==> TargetsOf(now, models[table], table, now.tables[u]))
    {
      KeysOfGrown(was, now, made, models, u);
      forall k | k in now.tables[u].shape.foreignKeys
        ensures k.table != TempName(table) && (u != table && k.table == table ==> KeyedByModel(now, models[table], table, k.target))
      {
        if u in was.tables {
          assert !Names(was.tables[u], TempName(table));
          if u != table && k.table == table {
            assert TargetsOf(was, models[table], table, was.tables[u]);
            StaysKeyedByModel(was, now, models[table], table, k.target);
          }
        } else {
          assert KeyDeclared(man, models, k);
        }
      }
    }
  }

  lemma RowsReadyGrown(was: Database, now: Database, made: seq<string>, man: Manifest, models: map<string, Model>, table: string)
    requires forall t | t in made :: t in models
    requires Grown(was, now, made, models) && ModelsAgree(man, models)
    requires Listed(man, table) && table in models && table in was.tables && RowsReady(was, models[table], table)
    ensures table in now.tables && RowsReady(now, models[table], table)
  {
    assert Extended(was.tables[table], now.tables[table]);
    ModelKeysGrown(was, now, made, man, models, table);
    TargetsGrown(was, now, made, man, models, table);
  }

  // ------------------------------------------------------------------------ clean, standing

  lemma CleanCreated(dialect: Dialect, was: Database, now: Database, made: seq<string>, man: Manifest, models: map<string, Model>)
    requires forall t | t in made :: t in models
    requires IsCreated(was, now, made, models) && ListsTheModels(man, models) && ModelsAgree(man, models)
    requires Clean(dialect, was, man)
    ensures Clean(dialect, now, man)
  {
    forall e | e in man.indexes && e.name in now.indexes
      ensures now.indexes[e.name].table == e.table
    {
      if e.name !in was.indexes {
        var t :| t in made && e.name in models[t].indexes;
        assert DeclaresAs(models[e.table], e);
        assert now.indexes[e.name] == Index(t, models[t].indexes[e.name]) && IndexOwner(models, e.table, e.name);
      }
    }
    if dialect.PostgreSQL? {
      forall e, f, k | e in man.checks && f in man.checks && e.table == f.table && e != f && k in LiveChecks(now, e.table) && k.name == f.name
        ensures !Mentions(k.text, e.column)
      {
        if e.table !in made {
          assert k in LiveChecks(was, e.table);
        }
      }
    }
  }

  lemma CleanWidened(dialect: Dialect, was: Database, now: Database, man: Manifest)
    requires Widened(was, now, man.columns) && Clean(dialect, was, man)
    ensures Clean(dialect, now, man)
  {
    if dialect.PostgreSQL? {
      forall t
        ensures LiveChecks(now, t) == LiveChecks(was, t)
      {
        if t in was.tables {
          assert TableWidened(was.tables[t], now.tables[t], t, man.columns);
        }
      }
    }
  }

  lemma CleanIndexed(dialect: Dialect, was: Database, now: Database, man: Manifest, models: map<string, Model>)
    requires Indexed(was, now, man.indexes) && Clean(dialect, was, man)
    requires ListsTheModels(man, models) && ModelsAgree(man, models)
    ensures Clean(dialect, now, man)
  {
    forall e | e in man.indexes && e.name in now.indexes
      ensures now.indexes[e.name].table == e.table
    {
      if e.name !in was.indexes {
        assert MadeFor(was, e.name, now.indexes[e.name], man.indexes);
        var f :| f in man.indexes && f.name == e.name && now.indexes[e.name] == Index(f.table, f.body);
        assert DeclaresAs(models[f.table], f) && DeclaresAs(models[e.table], e) && IndexOwner(models, e.table, e.name);
      }
    }
  }

  lemma StandingReached(created: Database, widened: Database, now: Database, man: Manifest)
    requires Widened(created, widened, man.columns) && Indexed(widened, now, man.indexes) && NamesFree(now, man)
    ensures Standing(now, man)
  {
    forall e | e in man.columns
      ensures HasColumn(now, e)
    {
      if e.table in now.tables {
        assert TableWidened(created.tables[e.table], widened.tables[e.table], e.table, man.columns);
      }
    }
    forall e | e in man.indexes
      ensures HasIndex(now, e)
    {
      assert HasIndex(widened, e) || e.name in now.indexes;
    }
  }

  /** Nothing absent before, nothing absent after: what an empty report says. */
  lemma StandingBefore(was: Database, widened: Database, man: Manifest)
    requires Widened(was, widened, man.columns)
    requires AbsentColumns(man.columns, was) == [] ==> widened == was
    ensures AbsentColumns(man.columns, was) == [] && AbsentIndexes(man.indexes, widened) == [] <==> Standing(was, man)
  {
    var missing := AbsentColumns(man.columns, was);
    AbsentColumnsExact(man.columns, was);
    AbsentIndexesExact(man.indexes, was);
    if missing != [] {
      assert missing[0] in missing;
    } else {
      forall e | e in man.columns
        ensures HasColumn(was, e)
      {
        assert e !in missing;
      }
      var unindexed := AbsentIndexes(man.indexes, was);
      if unindexed != [] {
        assert unindexed[0] in unindexed;
      } else {
        forall e | e in man.indexes
          ensures HasIndex(was, e)
        {
          assert e !in unindexed;
        }
      }
    }
  }

  lemma {:induction false} SameAbsentColumns(columns: seq<ColumnEntry>, a: Database, b: Database)
    requires forall e | e in columns :: HasColumn(a, e) <==> HasColumn(b, e)
    ensures AbsentColumns(columns, a) == AbsentColumns(columns, b)
    decreases |columns|
  {
    if columns != [] {
      assert columns[|columns| - 1] in columns;
      assert forall e | e in columns[..|columns| - 1] :: e in columns;
      SameAbsentColumns(columns[..|columns| - 1], a, b);
    }
  }

  lemma {:induction false} SameAbsentIndexes(indexes: seq<IndexEntry>, a: Database, b: Database)
    requires forall e | e in indexes :: HasIndex(a, e) <==> HasIndex(b, e)
    ensures AbsentIndexes(indexes, a) == AbsentIndexes(indexes, b)
    decreases |indexes|
  {
    if indexes != [] {
      assert indexes[|indexes| - 1] in indexes;
      assert forall e | e in indexes[..|indexes| - 1] :: e in indexes;
      SameAbsentIndexes(indexes[..|indexes| - 1], a, b);
    }
  }

  /** Created tables come with their listed columns and indexes, so the report names exactly what
      the older tables lacked. */
  lemma NothingLackingWhereCreated(was: Database, created: Database, widened: Database, made: seq<string>, man: Manifest, models: map<string, Model>)
    requires ListsTheModels(man, models) && forall t | t in made :: t in models && t !in was.tables
    requires IsCreated(was, created, made, models) && Widened(created, widened, man.columns)
    ensures AbsentColumns(man.columns, created) == AbsentColumns(man.columns, was)
    ensures AbsentIndexes(man.indexes, widened) == AbsentIndexes(man.indexes, was)
  {
    forall e | e in man.columns
      ensures HasColumn(created, e) <==> HasColumn(was, e)
    {
      assert created.tables.Keys == was.tables.Keys + (set t | t in made);
    }
    SameAbsentColumns(man.columns, created, was);
    forall e | e in man.indexes
      ensures HasIndex(widened, e) <==> HasIndex(was, e)
    {
      IndexWhereCreated(was, created, made, man, models, e);
    }
    SameAbsentIndexes(man.indexes, widened, was);
  }

  lemma IndexWhereCreated(was: Database, created: Database, made: seq<string>, man: Manifest, models: map<string, Model>, e: IndexEntry)
    requires ListsTheModels(man, models) && forall t | t in made :: t in models && t !in was.tables
    requires IsCreated(was, created, made, models) && e in man.indexes
    ensures HasIndex(created, e) <==> HasIndex(was, e)
  {
    if e.table in was.tables && e.name in created.indexes && e.name !in was.indexes {
      assert DeclaresIndex(made, models, e.name);
      var t :| t in made && e.name in models[t].indexes;
      assert created.indexes[e.name] == Index(t, models[t].indexes[e.name]);
    }
  }

  // --------------------------------------------------------------------- the whole condition

  predicate ColumnsComing(db: Database, man: Manifest, m: Model, table: string)
    requires table in db.tables
  {
    forall c | c in m.shape.columns :: c in db.tables[table].shape.columns || ColumnEntry(table, c) in man.columns
  }

  predicate IndexesComing(db: Database, man: Manifest) {
    forall e | e in man.indexes && e.table in db.tables && e.name !in db.indexes ::
      && (forall c | c in e.body.columns :: c in db.tables[e.table].shape.columns || ColumnEntry(e.table, c) in man.columns)
      && (e.body.unique ==> Distinct(db.tables[e.table].rows, e.body.columns))
  }

  predicate EntryRepairable(dialect: Dialect, db: Database, man: Manifest, models: map<string, Model>, e: CheckEntry) {
    e.table in db.tables && !Satisfied(db, e) ==>
      match dialect
      case PostgreSQL => ConstraintReady(db, e)
      case SQLite => e.table in models && ColumnsComing(db, man, models[e.table], e.table) && RowsReady(db, models[e.table], e.table)
  }

  /** The tables to create, when creating was asked for. */
  function Made(db: Database, man: Manifest, create: bool): seq<string> {
    if create then Absent(man.tables, db) else []
  }

  /** An earlier schema the migration can repair: names and references line up, what the models
      declare and the tables lack is in the manifest, and where a constraint has to be rewritten
      the rows already satisfy the model. */
  predicate Repairable(dialect: Dialect, db: Database, man: Manifest, models: map<string, Model>, create: bool) {
    var made := Made(db, man, create);
    && Clean(dialect, db, man)
    && (forall t | t in made :: t in models)
    && ParentsKnown(dialect, db, made, models) && IndexNamesOpen(db, made, models)
    && IndexesComing(db, man)
    && (dialect.SQLite? ==> Integrity(db) && ReferencesMeet(db, made, models))
    && (forall e | e in man.checks :: EntryRepairable(dialect, db, man, models, e))
  }

  lemma IndexesOpenWhenGrown(was: Database, created: Database, widened: Database, made: seq<string>, man: Manifest, models: map<string, Model>)
    requires ListsTheModels(man, models) && forall t | t in made :: t in models && t !in was.tables
    requires IsCreated(was, created, made, models) && Widened(created, widened, man.columns)
    requires IndexesComing(was, man)
    ensures IndexesOpen(widened, man)
  {
    forall e | e in man.indexes && e.table in widened.tables && e.name !in widened.indexes
      ensures CanIndex(widened, e.table, e.body)
    {
      assert TableWidened(created.tables[e.table], widened.tables[e.table], e.table, man.columns);
      assert e.table !in made;
    }
  }

  lemma EntryReadyWhenGrown(dialect: Dialect, was: Database, now: Database, made: seq<string>, man: Manifest, models: map<string, Model>, e: CheckEntry)
    requires Coherent(man, models) && forall t | t in made :: t in models
    requires Grown(was, now, made, models) && Standing(now, man) && e in man.checks
    requires EntryRepairable(dialect, was, man, models, e)
    ensures EntryReady(dialect, now, models, e)
  {
    if e.table in made {
      assert Extended(Table(models[e.table].shape, []), now.tables[e.table]);
      assert Satisfied(now, e);
    }
    if e.table in now.tables && !Satisfied(now, e) {
      assert e.table in was.tables && Extended(was.tables[e.table], now.tables[e.table]);
      if dialect.SQLite? {
        assert Listed(man, e.table);
        RowsReadyGrown(was, now, made, man, models, e.table);
        forall c | c in models[e.table].shape.columns
          ensures c in now.tables[e.table].shape.columns
        {
          assert ColumnEntry(e.table, c) in man.columns ==> HasColumn(now, ColumnEntry(e.table, c));
        }
      }
    }
  }

  lemma ReadyWhenGrown(dialect: Dialect, was: Database, now: Database, made: seq<string>, man: Manifest, models: map<string, Model>, create: bool)
    requires Coherent(man, models) && made == Made(was, man, create) && forall t | t in made :: t in models
    requires Grown(was, now, made, models) && Standing(now, man)
    requires Repairable(dialect, was, man, models, create)
    ensures Ready(dialect, now, man, models)
  {
    if dialect.SQLite? {
      IntegrityGrown(was, now, made, man, models);
    }
    forall e | e in man.checks
      ensures EntryReady(dialect, now, models, e)
    {
      EntryReadyWhenGrown(dialect, was, now, made, man, models, e);
    }
  }
}
