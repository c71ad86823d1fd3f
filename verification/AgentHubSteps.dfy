/** What rewriting one CHECK constraint of the Agent Hub keeps of everything around it. */
module AgentHubSteps {
  import opened CheckText
  import opened Databases
  import opened TableRebuild
  import opened AgentHubSchema
  import opened AgentHubChecks

  // ---------------------------------------------------------------------- rows and columns

  /** The same rows, over some of the same columns. */
  predicate Trimmed(a: Table, b: Table) {
    && |b.rows| == |a.rows|
    && (forall c | c in b.shape.columns :: c in a.shape.columns)
    && (forall i | 0 <= i < |a.rows| :: forall c | c in b.shape.columns :: Cell(b.rows[i], c) == Cell(a.rows[i], c))
  }

  /** Untouched, save perhaps for the name a foreign key uses. */
  predicate Bystander(a: Table, b: Table) {
    b == a.(shape := a.shape.(foreignKeys := b.shape.foreignKeys))
  }

  predicate Listed(man: Manifest, table: string) {
    exists e | e in man.checks :: e.table == table
  }

  /** From one database to a later one: no table but a leftover temporary one goes, no row and no
      value of a column that is still there is lost, and tables without listed constraints are
      bystanders. */
  predicate Trims(was: Database, now: Database, man: Manifest) {
    && now.tables.Keys <= was.tables.Keys
    && (forall u | u in was.tables && !IsTemp(man, u) :: u in now.tables)
    && (forall u | u in now.tables :: Trimmed(was.tables[u], now.tables[u]))
    && (forall u | u in now.tables && !Listed(man, u) :: Bystander(was.tables[u], now.tables[u]))
  }

  lemma TrimsCompose(a: Database, b: Database, c: Database, man: Manifest)
    requires Trims(a, b, man) && Trims(b, c, man)
    ensures Trims(a, c, man)
  {
    forall u | u in c.tables
      ensures Trimmed(a.tables[u], c.tables[u])
    {
      assert Trimmed(a.tables[u], b.tables[u]) && Trimmed(b.tables[u], c.tables[u]);
    }
    forall u | u in c.tables && !Listed(man, u)
      ensures Bystander(a.tables[u], c.tables[u])
    {
      assert Bystander(a.tables[u], b.tables[u]) && Bystander(b.tables[u], c.tables[u]);
    }
  }

  lemma ProjectTrims(t: Table, m: Model)
    requires forall c | c in m.shape.columns :: c in t.shape.columns
    ensures Trimmed(t, Table(m.shape, Project(t.rows, m.shape.columns)))
  {
  }

  /** The indexes that no rewrite touches. */
  predicate IndexesStay(dialect: Dialect, was: Database, now: Database, man: Manifest) {
    forall n | n in was.indexes && Untouched(dialect, man, was.indexes[n].table) :: n in now.indexes && now.indexes[n] == was.indexes[n]
  }

  /** No rebuild is of this table. */
  predicate Untouched(dialect: Dialect, man: Manifest, table: string) {
    dialect.PostgreSQL? || (!Listed(man, table) && !IsTemp(man, table))
  }

  lemma EvolvedKeepsIndexes(dialect: Dialect, models: map<string, Model>, was: Database, now: Database, man: Manifest, e: CheckEntry)
    requires e in man.checks && Evolved(dialect, models, was, now, e)
    ensures IndexesStay(dialect, was, now, man)
  {
    assert Listed(man, e.table) && IsTemp(man, TempName(e.table));
    forall n | n in was.indexes && Untouched(dialect, man, was.indexes[n].table)
      ensures n in now.indexes && now.indexes[n] == was.indexes[n]
    {
      assert dialect.SQLite? ==> n in OtherIndexes(was, e.table);
    }
  }

  /** Indexes that stand as they are listed go on doing so, and unique ones go on being that. */
  predicate IndexesCarried(was: Database, now: Database, man: Manifest) {
    && (forall e | e in man.indexes && StandsAs(was, e) :: StandsAs(now, e))
    && (UniquesHold(was) ==> UniquesHold(now))
  }

  lemma RebuiltUniques(was: Database, now: Database, m: Model, table: string)
    requires Rebuildable(was, m, table) && IsRebuilt(was, now, m, table) && UniquesHold(was)
    ensures UniquesHold(now)
  {
    forall n | n in now.indexes
      ensures IndexHolds(now, now.indexes[n])
    {
      if n in OtherIndexes(was, table) {
        assert IndexHolds(was, was.indexes[n]);
      }
    }
  }

  lemma EvolvedCarries(dialect: Dialect, models: map<string, Model>, was: Database, now: Database, man: Manifest, e: CheckEntry)
    requires ListsTheModels(man, models) && Evolved(dialect, models, was, now, e)
    ensures IndexesCarried(was, now, man)
  {
    forall x | x in man.indexes && StandsAs(was, x)
      ensures StandsAs(now, x)
    {
      assert DeclaresAs(models[x.table], x);
    }
    if UniquesHold(was) {
      if dialect.SQLite? {
        RebuiltUniques(was, now, models[e.table], e.table);
      } else {
        forall n | n in now.indexes
          ensures IndexHolds(now, now.indexes[n])
        {
          assert IndexHolds(was, was.indexes[n]);
        }
      }
    }
  }

  lemma EvolvedTrims(dialect: Dialect, models: map<string, Model>, was: Database, now: Database, man: Manifest, e: CheckEntry)
    requires e in man.checks && Evolved(dialect, models, was, now, e)
    ensures Trims(was, now, man)
  {
    assert Listed(man, e.table) && IsTemp(man, TempName(e.table));
    forall u | u in now.tables
      ensures Trimmed(was.tables[u], now.tables[u])
      ensures Listed(man, u) || Bystander(was.tables[u], now.tables[u])
    {
      if u == e.table && dialect.SQLite? {
        ProjectTrims(was.tables[u], models[u]);
      }
    }
  }

  // ------------------------------------------------------------------------------ admission

  lemma {:induction false} AdmitsWithout(checks: seq<Check>, gone: string, name: string, values: seq<string>)
    requires gone != name
    ensures Admits(ChecksWithout(checks, gone), name, values) == Admits(checks, name, values)
    decreases |checks|
  {
    if checks != [] {
      AdmitsWithout(checks[1..], gone, name, values);
      if checks[0].name != gone {
        assert ChecksWithout(checks, gone) == [checks[0]] + ChecksWithout(checks[1..], gone);
      } else {
        assert ChecksWithout(checks, gone) == ChecksWithout(checks[1..], gone);
      }
    }
  }

  lemma DoomedBefore(live: seq<Check>, column: string, name: string)
    requires live != [] && !Doomed(live, column, name)
    ensures !Doomed(live[..|live| - 1], column, name)
    ensures live[|live| - 1].name != "" && Mentions(live[|live| - 1].text, column) ==> live[|live| - 1].name != name
  {
    assert live == live[..|live| - 1] + [live[|live| - 1]];
  }

  lemma {:induction false} AdmitsDropMentions(checks: seq<Check>, live: seq<Check>, column: string, name: string, values: seq<string>)
    requires !Doomed(live, column, name)
    ensures Admits(DropMentions(checks, live, column), name, values) == Admits(checks, name, values)
    decreases |live|
  {
    if live != [] {
      var item, before := live[|live| - 1], live[..|live| - 1];
      DoomedBefore(live, column, name);
      AdmitsDropMentions(checks, before, column, name, values);
      if item.name != "" && Mentions(item.text, column) {
        AdmitsWithout(DropMentions(checks, before, column), item.name, name, values);
      }
    }
  }

  lemma {:induction false} AdmitsAppended(checks: seq<Check>, added: Check, name: string, values: seq<string>)
    requires added.name != name
    ensures Admits(checks + [added], name, values) == Admits(checks, name, values)
    decreases |checks|
  {
    if checks == [] {
      assert (checks + [added])[1..] == [];
    } else {
      assert (checks + [added])[1..] == checks[1..] + [added];
      AdmitsAppended(checks[1..], added, name, values);
    }
  }

  /** The entry that was rewritten is satisfied. */
  lemma EvolvedSatisfies(dialect: Dialect, models: map<string, Model>, was: Database, now: Database, man: Manifest, e: CheckEntry)
    requires e in man.checks && SelfConsistent(man) && ListsTheModels(man, models)
    requires Evolved(dialect, models, was, now, e)
    ensures Satisfied(now, e)
  {
    if dialect.PostgreSQL? {
      var left := DropMentions(was.tables[e.table].shape.checks, was.tables[e.table].shape.checks, e.column);
      IdentifierIsQuoteFree(e.column);
      AdmitsAfterAdding(left, e.name, e.column, e.values, e.values);
    }
  }

  /** And no other entry stops being. */
  lemma EvolvedKeepsSatisfied(dialect: Dialect, models: map<string, Model>, was: Database, now: Database, man: Manifest, e: CheckEntry, f: CheckEntry)
    requires e in man.checks && f in man.checks && SelfConsistent(man) && ListsTheModels(man, models)
    requires Evolved(dialect, models, was, now, e) && Clean(dialect, was, man)
    requires Satisfied(was, f)
    ensures Satisfied(now, f)
  {
    if e == f {
      EvolvedSatisfies(dialect, models, was, now, man, e);
    } else if f.table == e.table && dialect.PostgreSQL? {
      assert Apart(e, f);
      var checks := was.tables[e.table].shape.checks;
      AdmitsDropMentions(checks, checks, e.column, f.name, f.values);
      AdmitsAppended(DropMentions(checks, checks, e.column), Generated(e.name, e.column, e.values), f.name, f.values);
    }
  }

  lemma {:induction false} AdmitsSome(checks: seq<Check>, name: string, values: seq<string>)
    requires Admits(checks, name, values)
    ensures exists k | k in checks :: k.name == name
    decreases |checks|
  {
    if checks[0].name == name {
      assert checks[0] in checks;
    } else {
      AdmitsSome(checks[1..], name, values);
    }
  }

  /** On PostgreSQL a rewrite costs another entry of the table its constraint exactly when that
      live constraint mentions the rewritten column. */
  lemma AdmissionLost(models: map<string, Model>, was: Database, now: Database, e: CheckEntry, f: CheckEntry)
    requires e.table == f.table && e.name != f.name
    requires Evolved(PostgreSQL, models, was, now, e) && Satisfied(was, f)
    ensures Satisfied(now, f) <==> !Doomed(was.tables[e.table].shape.checks, e.column, f.name)
  {
    var checks := was.tables[e.table].shape.checks;
    var left := DropMentions(checks, checks, e.column);
    AdmitsAppended(left, Generated(e.name, e.column, e.values), f.name, f.values);
    if Doomed(checks, e.column, f.name) {
      if Admits(left, f.name, f.values) {
        AdmitsSome(left, f.name, f.values);
        assert false;
      }
    } else {
      AdmitsDropMentions(checks, checks, e.column, f.name, f.values);
    }
  }

  lemma VocabularyAdmits(left: seq<Check>, e: CheckEntry)
    requires Identifier(e.column) && forall v | v in e.values :: QuoteFree(v)
    requires forall k | k in left :: k.name != e.name
    ensures Admits(left + [Generated(e.name, e.column, e.values)], e.name, e.values)
  {
    IdentifierIsQuoteFree(e.column);
    AdmitsAfterAdding(left, e.name, e.column, e.values, e.values);
  }

  lemma OneCheck(k: Check, e: CheckEntry, f: CheckEntry)
    requires e.name != f.name && k == Generated(f.name, f.column, f.values)
    requires Identifier(f.column) && forall v | v in f.values :: QuoteFree(v)
    ensures Admits([k], f.name, f.values) && !Admits([k], e.name, e.values)
  {
    VocabularyAdmits([], f);
    assert [] + [k] == [k];
    assert [k][1..] == [];
  }

  lemma DoomedByAValue(k: Check, e: CheckEntry, f: CheckEntry)
    requires k == Generated(f.name, f.column, f.values) && f.name != ""
    requires Identifier(e.column) && Identifier(f.column) && e.column in f.values
    ensures Doomed([k], e.column, f.name)
  {
    IdentifierIsWord(e.column);
    InCheckMentions(f.column, f.values, e.column);
    assert k in [k];
  }

  /** A table whose one live constraint has a value spelled like the column that is rewritten. */
  lemma LosesAnEntry(models: map<string, Model>, was: Database, now: Database, e: CheckEntry, f: CheckEntry)
    requires e.table == f.table && e.name != f.name && f.name != ""
    requires Identifier(e.column) && Identifier(f.column) && e.column in f.values
    requires (forall v | v in e.values :: QuoteFree(v)) && (forall v | v in f.values :: QuoteFree(v))
    requires Evolved(PostgreSQL, models, was, now, e)
    requires was.tables[e.table].shape.checks == [Generated(f.name, f.column, f.values)]
    ensures Satisfied(was, f) && !Satisfied(was, e) && !Satisfied(now, f) && Satisfied(now, e)
  {
    var k := Generated(f.name, f.column, f.values);
    OneCheck(k, e, f);
    DoomedByAValue(k, e, f);
    AdmissionLost(models, was, now, e, f);
    VocabularyAdmits(DropMentions([k], [k], e.column), e);
  }

  lemma OneTable(models: map<string, Model>, columns: seq<string>, k: Check, e: CheckEntry) returns (was: Database, now: Database)
    requires k.name != e.name && e.values != []
    ensures WellFormed(was) && Evolved(PostgreSQL, models, was, now, e)
    ensures was.tables[e.table].shape.checks == [k]
  {
    was := Database(map[e.table := Table(Shape(columns, {}, [k], [], []), [])], map[]);
    now := WithChecks(was, e.table, AgentHubChecks.Swapped([k], [k], e));
  }

  lemma ValueCosts(models: map<string, Model>, e: CheckEntry, f: CheckEntry) returns (was: Database, now: Database)
    requires e.table == f.table && e.name != f.name && f.name != ""
    requires Identifier(e.column) && Identifier(f.column) && f.values == [e.column]
    requires e.values != [] && forall v | v in e.values :: QuoteFree(v)
    ensures WellFormed(was) && Evolved(PostgreSQL, models, was, now, e)
    ensures Satisfied(was, f) && !Satisfied(was, e) && !Satisfied(now, f) && Satisfied(now, e)
  {
    assert f.values[0] == e.column;
    IdentifierIsQuoteFree(e.column);
    was, now := OneTable(models, [e.column, f.column], Generated(f.name, f.column, f.values), e);
    LosesAnEntry(models, was, now, e, f);
  }

  /** The failing input: `status` may be `kind`, and then `kind` gets a new vocabulary. */
  lemma AValueCostsAnEntry(models: map<string, Model>, table: string) returns (was: Database, now: Database, e: CheckEntry, f: CheckEntry)
    ensures WellFormed(was) && e.table == f.table == table && e.column == "kind" && f.column == "status"
    ensures Evolved(PostgreSQL, models, was, now, e)
    ensures Satisfied(was, f) && !Satisfied(was, e) && !Satisfied(now, f) && Satisfied(now, e)
  {
    e, f := CheckEntry(table, "ck_kind", "kind", ["a"]), CheckEntry(table, "ck_status", "status", ["kind"]);
    assert |e.name| != |f.name|;
    was, now := ValueCosts(models, e, f);
  }

  // ---------------------------------------------------------------------- columns, indexes

  lemma EvolvedKeepsStanding(dialect: Dialect, models: map<string, Model>, was: Database, now: Database, man: Manifest, e: CheckEntry)
    requires e in man.checks && ListsTheModels(man, models) && NamesFree(was, man)
    requires Evolved(dialect, models, was, now, e) && Standing(was, man)
    ensures Standing(now, man)
  {
    forall x | x in man.columns
      ensures HasColumn(now, x)
    {
      assert HasColumn(was, x);
    }
    forall x | x in man.indexes
      ensures HasIndex(now, x)
    {
      assert HasIndex(was, x);
    }
  }

  lemma EvolvedKeepsNames(dialect: Dialect, models: map<string, Model>, was: Database, now: Database, man: Manifest, e: CheckEntry)
    requires e in man.checks && ListsTheModels(man, models) && ModelsAgree(man, models)
    requires Evolved(dialect, models, was, now, e) && NamesFree(was, man)
    ensures NamesFree(now, man)
  {
    forall x | x in man.indexes && x.name in now.indexes
      ensures now.indexes[x.name].table == x.table
    {
      if dialect.SQLite? && x.name !in OtherIndexes(was, e.table) {
        assert x.name in models[e.table].indexes && IndexOwner(models, x.table, x.name);
      }
    }
  }

  lemma EvolvedKeepsUndisturbed(models: map<string, Model>, was: Database, now: Database, man: Manifest, e: CheckEntry)
    requires e in man.checks && SelfConsistent(man)
    requires Evolved(PostgreSQL, models, was, now, e) && Undisturbed(was, man)
    ensures Undisturbed(now, man)
  {
    forall x, f, k | x in man.checks && f in man.checks && x.table == f.table && x != f && k in LiveChecks(now, x.table) && k.name == f.name
      ensures !Mentions(k.text, x.column)
    {
      if k !in LiveChecks(was, x.table) {
        assert k == Generated(e.name, e.column, e.values) && x.table == e.table;
        assert Apart(e, f) && Apart(f, x) && Apart(e, x);
        assert f == e;
        InCheckMentions(e.column, e.values, x.column);
      } else {
        assert k in LiveChecks(was, x.table);
      }
    }
  }

  lemma EvolvedKeepsClean(dialect: Dialect, models: map<string, Model>, was: Database, now: Database, man: Manifest, e: CheckEntry)
    requires e in man.checks && Coherent(man, models)
    requires Evolved(dialect, models, was, now, e) && Clean(dialect, was, man)
    ensures Clean(dialect, now, man)
  {
    EvolvedKeepsNames(dialect, models, was, now, man, e);
    if dialect.PostgreSQL? {
      EvolvedKeepsUndisturbed(models, was, now, man, e);
    }
  }

  lemma EvolvedKeepsWellFormed(dialect: Dialect, models: map<string, Model>, was: Database, now: Database, e: CheckEntry)
    requires Evolved(dialect, models, was, now, e) && WellFormed(was)
    ensures WellFormed(now)
  {
    match dialect
    case SQLite =>
      RebuildKeepsWellFormed(was, now, models[e.table], e.table);
    case PostgreSQL =>
      forall u | u in now.tables
        ensures RowsWithin(now.tables[u])
      {
        assert RowsWithin(was.tables[u]);
      }
  }

  // ------------------------------------------------------------------------------ readiness

  /** Rebuilding one table keeps another one ready. */
  lemma OtherRowsReady(was: Database, now: Database, man: Manifest, models: map<string, Model>, table: string, u: string)
    requires ModelsAgree(man, models) && table in models && u in models && Listed(man, table) && Listed(man, u)
    requires table in was.tables && IsRebuilt(was, now, models[table], table) && TempUnnamed(was, table)
    requires u in was.tables && u in now.tables && u != table
    requires RowsReady(was, models[u], u)
    ensures now.tables[u] == was.tables[u] && RowsReady(now, models[u], u)
  {
    var m := models[table];
    RetargetNothing(was.tables[u], TempName(table), table);
    forall k | k in models[u].shape.foreignKeys
      ensures ModelKeyHolds(now, models[u], u, k)
    {
      ListedTemps(man, table);
      assert KeyDeclared(man, models, k) && ModelKeyHolds(was, models[u], u, k);
      if k.table != u {
        KeyIntoRebuilt(was, now, m, table, was.tables[u].rows, k);
      }
    }
    OtherTargetsKept(was, now, man, models, table, u);
  }

  /** No index of the model finds its name taken that found it free before. */
  predicate NamesStayFree(was: Database, now: Database, m: Model, table: string) {
    forall n | n in m.indexes && n in OtherIndexes(now, table) :: n in OtherIndexes(was, table)
  }

  lemma StaysKeyedByModel(was: Database, now: Database, m: Model, table: string, column: string)
    requires NamesStayFree(was, now, m, table) && KeyedByModel(was, m, table, column)
    ensures KeyedByModel(now, m, table, column)
  {
  }

  lemma RebuiltLeavesNames(was: Database, now: Database, models: map<string, Model>, table: string, u: string)
    requires IndexNamesUnique(models) && table in models && u in models && u != table
    requires table in was.tables && IsRebuilt(was, now, models[table], table)
    ensures NamesStayFree(was, now, models[u], u)
  {
    forall n | n in models[u].indexes && n in OtherIndexes(now, u)
      ensures n in OtherIndexes(was, u)
    {
      assert IndexOwner(models, u, n);
      assert n in OtherIndexes(was, table);
    }
  }

  lemma ListedTemps(man: Manifest, table: string)
    requires Listed(man, table)
    ensures IsTemp(man, TempName(table))
  {
  }

  lemma OtherTargetsKept(was: Database, now: Database, man: Manifest, models: map<string, Model>, table: string, u: string)
    requires ModelsAgree(man, models) && table in models && u in models && Listed(man, table) && Listed(man, u)
    requires table in was.tables && IsRebuilt(was, now, models[table], table) && TempUnnamed(was, table)
    requires TempUnnamed(was, u) && TargetsKept(was, models[u], u) && u != table
    ensures TempUnnamed(now, u) && TargetsKept(now, models[u], u)
  {
    var m := models[table];
    ListedTemps(man, table);
    ListedTemps(man, u);
    forall k | k in m.shape.foreignKeys
      ensures k.table != TempName(table) && k.table != TempName(u) && (k.table == u ==> KeyedByModel(now, models[u], u, k.target))
    {
      assert KeyDeclared(man, models, k);
    }
    RebuiltLeavesNames(was, now, models, table, u);
    forall w | w in now.tables
      ensures now.tables[w].shape.foreignKeys == if w == table then m.shape.foreignKeys else was.tables[w].shape.foreignKeys
    {
      RetargetNothing(if w == table then Table(m.shape, []) else was.tables[w], TempName(table), table);
    }
    forall w | w in now.tables && w != u && w != TempName(u)
      ensures TargetsOf(now, models[u], u, now.tables[w])
    {
      if w != table {
        assert TargetsOf(was, models[u], u, was.tables[w]);
        forall k | k in now.tables[w].shape.foreignKeys && k.table == u
          ensures KeyedByModel(now, models[u], u, k.target)
        {
          StaysKeyedByModel(was, now, models[u], u, k.target);
        }
      }
    }
  }

  lemma RebuiltKeepsReady(was: Database, now: Database, man: Manifest, models: map<string, Model>, e: CheckEntry, f: CheckEntry)
    requires Coherent(man, models) && e in man.checks && f in man.checks
    requires Evolved(SQLite, models, was, now, e) && NamesFree(was, man) && TempUnnamed(was, e.table)
    requires EntryReady(SQLite, was, models, f)
    ensures EntryReady(SQLite, now, models, f)
  {
    if f.table in now.tables && !Satisfied(now, f) {
      if Satisfied(was, f) {
        EvolvedKeepsSatisfied(SQLite, models, was, now, man, e, f);
      } else if f.table != e.table {
        assert Listed(man, e.table) && Listed(man, f.table);
        OtherRowsReady(was, now, man, models, e.table, f.table);
      }
    }
  }

  lemma AddedKeepsReady(was: Database, now: Database, man: Manifest, models: map<string, Model>, e: CheckEntry, f: CheckEntry)
    requires Coherent(man, models) && e in man.checks && f in man.checks
    requires Evolved(PostgreSQL, models, was, now, e) && Clean(PostgreSQL, was, man)
    requires EntryReady(PostgreSQL, was, models, f)
    ensures EntryReady(PostgreSQL, now, models, f)
  {
    if f.table in now.tables && !Satisfied(now, f) {
      if Satisfied(was, f) {
        EvolvedKeepsSatisfied(PostgreSQL, models, was, now, man, e, f);
      } else if e == f {
        EvolvedSatisfies(PostgreSQL, models, was, now, man, e);
      } else {
        assert Apart(e, f);
      }
    }
  }

  lemma ModelDeclared(man: Manifest, models: map<string, Model>, e: CheckEntry)
    requires Coherent(man, models) && e in man.checks
    ensures OwnKeys(models[e.table], e.table)
    ensures forall n | n in models[e.table].indexes :: forall c | c in models[e.table].indexes[n].columns :: c in models[e.table].shape.columns
  {
    forall k | k in models[e.table].shape.foreignKeys
      ensures k.column in models[e.table].shape.columns && k.table != TempName(e.table)
    {
      assert KeyDeclared(man, models, k) && IsTemp(man, TempName(e.table));
    }
  }

  lemma RebuiltAllReady(was: Database, now: Database, man: Manifest, models: map<string, Model>, e: CheckEntry)
    requires Coherent(man, models) && e in man.checks && !Satisfied(was, e)
    requires Evolved(SQLite, models, was, now, e) && NamesFree(was, man) && Ready(SQLite, was, man, models)
    ensures Ready(SQLite, now, man, models)
  {
    assert EntryReady(SQLite, was, models, e);
    ModelDeclared(man, models, e);
    ReadyIsRebuildable(was, models[e.table], e.table);
    forall f | f in man.checks
      ensures EntryReady(SQLite, now, models, f)
    {
      RebuiltKeepsReady(was, now, man, models, e, f);
    }
  }

  lemma EvolvedKeepsReady(dialect: Dialect, models: map<string, Model>, was: Database, now: Database, man: Manifest, e: CheckEntry)
    requires Coherent(man, models) && e in man.checks && !Satisfied(was, e)
    requires Evolved(dialect, models, was, now, e) && Clean(dialect, was, man)
    requires Ready(dialect, was, man, models)
    ensures Ready(dialect, now, man, models)
  {
    match dialect
    case SQLite =>
      RebuiltAllReady(was, now, man, models, e);
    case PostgreSQL =>
      forall f | f in man.checks
        ensures EntryReady(PostgreSQL, now, models, f)
      {
        AddedKeepsReady(was, now, man, models, e, f);
      }
  }
}
