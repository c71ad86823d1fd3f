/** A database from before the `validate` phase, which could not start an import
    (backend/models/agent_hub_migrate.py, lines 87-90), is one the migration repairs; one where a
    listed index name is taken is one it never completes. */
module AgentHubEarlier {
  import opened Basics
  import opened CheckText
  import opened Databases
  import opened TableRebuild
  import opened AgentHubSchema
  import opened AgentHubChecks
  import opened AgentHubSteps
  import opened AgentHubMigrate
  import opened AgentHubTopUp
  import opened AgentHubGrowth
  import opened AgentHubManifest
  import opened AgentHubModels
  import opened AgentHubCoherence

  // ---------------------------------------------------- three tables, one of them out of date

  /** Three tables with the indexes their models declare on the last two. */
  function ThreeTables(users: string, parents: string, table: string, u: Table, p: Table, t: Table, pm: Model, m: Model): Database {
    Database(map[users := u, parents := p, table := t], OnTable(parents, pm.indexes) + OnTable(table, m.indexes))
  }

  /** A table that others may refer to by `id` and that refers to none. */
  predicate Referable(t: Table) {
    t.shape.foreignKeys == [] && "id" in t.shape.columns && ["id"] in t.shape.uniques
  }

  /** The table is the model's but for its constraints, its rows meet the model, and every row
      has its parent. */
  predicate OutOfDate(parents: string, table: string, p: Table, t: Table, m: Model) {
    && t.shape == m.shape.(checks := t.shape.checks)
    && Referable(p)
    && Fits(m.shape, Project(t.rows, m.shape.columns))
    && (forall n | n in m.indexes :: !m.indexes[n].unique)
    && (forall k | k in m.shape.foreignKeys :: k.table == parents && k.target == "id" && ParentsFound(p.rows, t.rows, k))
  }

  lemma OutOfDateReady(users: string, parents: string, table: string, u: Table, p: Table, t: Table, pm: Model, m: Model, db: Database)
    requires users != parents && users != table && parents != table && parents != TempName(table)
    requires Referable(u) && OutOfDate(parents, table, p, t, m) && db == ThreeTables(users, parents, table, u, p, t, pm, m)
    ensures Integrity(db) && RowsReady(db, m, table)
  {
    forall k | k in m.shape.foreignKeys
      ensures KeyHolds(db, t.rows, k) && k.table != table
    {
    }
  }

  lemma PassesProjected(t: Table, m: Model, k: Check)
    requires Fits(m.shape, Project(t.rows, m.shape.columns)) && k in m.shape.checks && k.column in m.shape.columns
    ensures forall r | r in t.rows :: Passes(k, r)
  {
    forall r | r in t.rows
      ensures Passes(k, r)
    {
      var i :| 0 <= i < |t.rows| && t.rows[i] == r;
      var rows := Project(t.rows, m.shape.columns);
      assert rows[i] in rows && Cell(rows[i], k.column) == Cell(r, k.column);
    }
  }

  /** Every reference of a model is to an `id`, of `users` or of a table the manifest lists. */
  predicate ReferencesKnown(man: Manifest, models: map<string, Model>, users: string) {
    forall u, k | u in models && k in models[u].shape.foreignKeys :: (k.table == users || k.table in man.tables) && k.target == "id"
  }

  lemma ReferencesFound(dialect: Dialect, db: Database, man: Manifest, models: map<string, Model>, create: bool, users: string)
    requires ReferencesKnown(man, models, users) && users in db.tables && forall t | t in Made(db, man, create) :: t in models
    requires forall u | u in db.tables :: Keyed(db, u, "id")
    requires forall u, k | u in db.tables && k in db.tables[u].shape.foreignKeys :: k.table in db.tables
    ensures ParentsKnown(dialect, db, Made(db, man, create), models)
    ensures ReferencesMeet(db, Made(db, man, create), models)
  {
    AbsentExact(man.tables, db);
  }

  // ------------------------------------------------------------------ indexes as declared

  /** Every index is one that the model of its table declares. */
  predicate IndexesDeclared(db: Database, models: map<string, Model>) {
    forall n | n in db.indexes :: db.indexes[n].table in db.tables && DeclaredIndex(models, db.indexes[n].table, n)
  }

  lemma DeclaredNamesFree(db: Database, man: Manifest, models: map<string, Model>)
    requires IndexesDeclared(db, models) && ListsTheModels(man, models) && IndexNamesUnique(models)
    ensures NamesFree(db, man)
  {
    forall e | e in man.indexes && e.name in db.indexes
      ensures db.indexes[e.name].table == e.table
    {
      OneOwner(models, e.table, db.indexes[e.name].table, e.name);
    }
  }

  lemma DeclaredNamesOpen(db: Database, made: seq<string>, models: map<string, Model>)
    requires IndexesDeclared(db, models) && IndexNamesUnique(models) && forall t | t in made :: t !in db.tables
    ensures IndexNamesOpen(db, made, models)
  {
    forall t, n | t in made && t in models && n in models[t].indexes
      ensures n !in db.indexes
    {
      if n in db.indexes {
        OneOwner(models, t, db.indexes[n].table, n);
      }
    }
  }

  lemma OneEntryClean(dialect: Dialect, db: Database, man: Manifest, models: map<string, Model>, e: CheckEntry)
    requires IndexesDeclared(db, models) && ListsTheModels(man, models) && IndexNamesUnique(models)
    requires forall f | f in man.checks && f.table in db.tables :: f == e
    ensures Clean(dialect, db, man)
  {
    DeclaredNamesFree(db, man, models);
  }

  /** One listed constraint to rewrite, and everything else absent or as declared. */
  lemma OneEntryRepairable(dialect: Dialect, man: Manifest, models: map<string, Model>, create: bool, users: string, parents: string, e: CheckEntry, db: Database)
    requires users in db.tables && Coherent(man, models) && ReferencesKnown(man, models, users) && e in man.checks && e.table in db.tables
    requires forall u | u in db.tables :: Keyed(db, u, "id")
    requires forall u, k | u in db.tables && k in db.tables[u].shape.foreignKeys :: k.table in db.tables
    requires Integrity(db) && RowsReady(db, models[e.table], e.table) && ConstraintReady(db, e)
    requires forall c | c in models[e.table].shape.columns :: c in db.tables[e.table].shape.columns
    requires IndexesDeclared(db, models) && forall x | x in man.indexes && x.table in db.tables :: x.name in db.indexes
    requires forall f | f in man.checks && f.table in db.tables :: f == e
    ensures Repairable(dialect, db, man, models, create)
  {
    AbsentExact(man.tables, db);
    OneEntryClean(dialect, db, man, models, e);
    DeclaredNamesOpen(db, Made(db, man, create), models);
    ReferencesFound(dialect, db, man, models, create, users);
  }

  lemma ThreeRepairable(dialect: Dialect, man: Manifest, models: map<string, Model>, create: bool, users: string, parents: string, e: CheckEntry, u: Table, p: Table, t: Table, db: Database)
    requires users != parents && users != e.table && parents != e.table && parents != TempName(e.table)
    requires Coherent(man, models) && ReferencesKnown(man, models, users) && e in man.checks && parents in models
    requires db == ThreeTables(users, parents, e.table, u, p, t, models[parents], models[e.table])
    requires Referable(u) && OutOfDate(parents, e.table, p, t, models[e.table])
    requires "id" in t.shape.columns && ["id"] in t.shape.uniques && ConstraintReady(db, e)
    requires forall x | x in man.indexes :: x.table == parents
    requires forall f | f in man.checks :: f.table == users || f.table == parents || f.table == e.table ==> f == e
    ensures Repairable(dialect, db, man, models, create)
  {
    OutOfDateReady(users, parents, e.table, u, p, t, models[parents], models[e.table], db);
    ThreeAreKeyed(users, parents, e.table, u, p, t, models[parents], models[e.table], db);
    ThreeAreIndexed(users, parents, e.table, u, p, t, models, db);
    OneEntryRepairable(dialect, man, models, create, users, parents, e, db);
  }

  lemma ThreeAreKeyed(users: string, parents: string, table: string, u: Table, p: Table, t: Table, pm: Model, m: Model, db: Database)
    requires users != parents && users != table && parents != table
    requires db == ThreeTables(users, parents, table, u, p, t, pm, m)
    requires Referable(u) && OutOfDate(parents, table, p, t, m) && "id" in t.shape.columns && ["id"] in t.shape.uniques
    ensures db.tables.Keys == {users, parents, table} && db.tables[table] == t
    ensures forall v | v in db.tables :: Keyed(db, v, "id")
    ensures forall v, k | v in db.tables && k in db.tables[v].shape.foreignKeys :: k.table in db.tables
  {
  }

  lemma ThreeAreIndexed(users: string, parents: string, table: string, u: Table, p: Table, t: Table, models: map<string, Model>, db: Database)
    requires parents != table && parents in models && table in models
    requires db == ThreeTables(users, parents, table, u, p, t, models[parents], models[table])
    ensures IndexesDeclared(db, models)
    ensures forall n | n in models[parents].indexes :: n in db.indexes
  {
  }

  // --------------------------------------------------------------------- before `validate`

  const EARLIER_PHASE := ["migrate", "poll", "mirror_issues", "index_commits", "done"]

  const PHASE := CHECKS[4]

  /** `import_jobs` as it was declared then. */
  function EarlierJobs(modes: Vocabulary): Declaration {
    IMPORT_JOBS.(vocabularies := [modes, Vocabulary("phase", EARLIER_PHASE)])
  }

  /** That `import_jobs`, today's `repos`, and whatever `users` is, with the indexes of the former two. */
  function EarlierDb(users: Table, repos: seq<Row>, jobs: seq<Row>): Database {
    ThreeTables("users", "repos", PHASE.table, users,
                Table(ModelOf(REPOS).shape, repos), Table(ModelOf(EarlierJobs(IMPORT_JOBS.vocabularies[0])).shape, jobs),
                ModelOf(REPOS), ModelOf(IMPORT_JOBS))
  }

  lemma KnownReferences(declarations: seq<Declaration>, man: Manifest)
    requires AllSound(declarations) && DistinctTables(declarations) && man.tables == TABLES
    ensures ReferencesKnown(man, ModelsOf(declarations), "users")
  {
    var models := ModelsOf(declarations);
    ModelsOfExact(declarations);
    forall u, k | u in models && k in models[u].shape.foreignKeys
      ensures Known(k.table) && k.target == "id"
    {
      var i :| 0 <= i < |declarations| && declarations[i].table == u;
      KeysOfDeclaration(declarations[i], k);
    }
  }

  lemma JobsModel()
    ensures "import_jobs" in MODELS && MODELS["import_jobs"] == ModelOf(IMPORT_JOBS)
    ensures "repos" in MODELS && MODELS["repos"] == ModelOf(REPOS)
  {
    DeclarationsTagged();
    assert IMPORT_JOBS in REPO_TABLES && REPOS in REPO_TABLES;
    ModelOfMember(DECLARATIONS, IMPORT_JOBS);
    ModelOfMember(DECLARATIONS, REPOS);
  }

  lemma OnlyPhase(f: CheckEntry)
    requires f in CHECKS && (f.table == "users" || f.table == "repos" || f.table == "import_jobs")
    ensures f == PHASE
  {
  }

  lemma PhaseDeclared()
    ensures "phase" in ModelOf(IMPORT_JOBS).shape.columns && PHASE.table == "import_jobs" && PHASE.column == "phase"
    ensures Generated(PHASE.name, "phase", PHASE.values) in ModelOf(IMPORT_JOBS).shape.checks
  {
    ImportPhaseName();
    assert IMPORT_JOBS.vocabularies[1] == Vocabulary("phase", PHASE.values);
    assert Checks("import_jobs", IMPORT_JOBS.vocabularies)[1] == Generated(PHASE.name, "phase", PHASE.values);
    assert IMPORT_JOBS.columns[3] == "phase";
  }

  lemma PhaseNamed(modes: Vocabulary, e: CheckEntry)
    requires modes.column != "phase" && e == PHASE.(values := EARLIER_PHASE)
    ensures Lists(EarlierJobs(modes), e)
  {
    ImportPhaseName();
    ListsAt(EarlierJobs(modes), e, 1);
  }

  lemma ListedMentionsItself(d: Declaration, e: CheckEntry, k: Check)
    requires Lists(d, e) && Identifier(e.column) && k in ModelOf(d).shape.checks && k.name == e.name
    ensures Mentions(k.text, e.column)
  {
    OnlyItsName(d, e, k);
    InCheckMentions(e.column, e.values, e.column);
  }

  /** The old constraint mentions its column, so PostgreSQL finds it. */
  lemma EarlierMentions(modes: Vocabulary, k: Check)
    requires modes.column != "phase" && k in ModelOf(EarlierJobs(modes)).shape.checks && k.name == PHASE.name
    ensures Mentions(k.text, PHASE.column)
  {
    var e := PHASE.(values := EARLIER_PHASE);
    PhaseNamed(modes, e);
    ColumnWords();
    ListedMentionsItself(EarlierJobs(modes), e, k);
  }

  lemma EarlierQuoteFree()
    ensures forall v | v in EARLIER_PHASE :: QuoteFree(v)
  {
  }

  lemma LacksValue(table: string, first: Vocabulary, second: Vocabulary, required: seq<string>, v: string)
    requires first.column != second.column && QuoteFree(second.column) && forall w | w in second.values :: QuoteFree(w)
    requires v in required && v !in second.values
    ensures !Admits(Checks(table, [first, second]), CheckName(table, second.column), required)
  {
    var checks := Checks(table, [first, second]);
    var name := CheckName(table, second.column);
    assert checks == [checks[0]] + [Generated(name, second.column, second.values)];
    if checks[0].name == name {
      SameName(table, first.column, second.column);
    }
    AdmitsAfterAdding([checks[0]], name, second.column, second.values, required);
  }

  lemma ValidateIsNew()
    ensures "validate" in PHASE.values && "validate" !in EARLIER_PHASE && QuoteFree("phase")
  {
    assert PHASE.values[0] == "validate";
  }

  /** It does not admit `validate`, the phase every import starts in. */
  lemma EarlierLacksValidate(modes: Vocabulary)
    requires modes.column != "phase"
    ensures !Admits(ModelOf(EarlierJobs(modes)).shape.checks, PHASE.name, PHASE.values)
  {
    ImportPhaseName();
    EarlierQuoteFree();
    ValidateIsNew();
    LacksValue("import_jobs", modes, Vocabulary("phase", EARLIER_PHASE), PHASE.values, "validate");
  }

  lemma ModeIsNotPhase()
    ensures IMPORT_JOBS.vocabularies[0].column != "phase"
  {
  }

  /** Each old constraint of that name mentions the column, and the rows pass the new one. */
  predicate Rewritable(t: Table) {
    && (forall k | k in t.shape.checks && k.name == PHASE.name :: Mentions(k.text, PHASE.column))
    && (forall r | r in t.rows :: Passes(Generated(PHASE.name, PHASE.column, PHASE.values), r))
  }

  lemma EarlierRewritable(jobs: seq<Row>)
    requires Fits(ModelOf(IMPORT_JOBS).shape, Project(jobs, ModelOf(IMPORT_JOBS).shape.columns))
    ensures Rewritable(Table(ModelOf(EarlierJobs(IMPORT_JOBS.vocabularies[0])).shape, jobs))
    ensures !Admits(ModelOf(EarlierJobs(IMPORT_JOBS.vocabularies[0])).shape.checks, PHASE.name, PHASE.values)
  {
    var modes := IMPORT_JOBS.vocabularies[0];
    ModeIsNotPhase();
    PhaseDeclared();
    EarlierLacksValidate(modes);
    PassesProjected(Table(ModelOf(IMPORT_JOBS).shape, jobs), ModelOf(IMPORT_JOBS), Generated(PHASE.name, "phase", PHASE.values));
    forall k | k in ModelOf(EarlierJobs(modes)).shape.checks && k.name == PHASE.name
      ensures Mentions(k.text, PHASE.column)
    {
      EarlierMentions(modes, k);
    }
  }

  lemma OlderIsOutOfDate(parent: Declaration, d: Declaration, vocabularies: seq<Vocabulary>, table: string, parents: seq<Row>, rows: seq<Row>)
    requires parent.references == [] && (forall x | x in d.indexes :: !x.unique)
    requires d.references == [Reference("repo_id", parent.table)]
    requires Fits(ModelOf(d).shape, Project(rows, ModelOf(d).shape.columns))
    requires forall r | r in rows :: IsParent(parents, "id", Cell(r, "repo_id"))
    ensures Referable(Table(ModelOf(parent).shape, parents))
    ensures OutOfDate(parent.table, table, Table(ModelOf(parent).shape, parents), Table(ModelOf(d.(vocabularies := vocabularies)).shape, rows), ModelOf(d))
  {
    assert ColumnsOf(parent)[0] == "id" && ModelOf(parent).shape.uniques[0] == ["id"];
    forall n | n in ModelOf(d).indexes
      ensures !ModelOf(d).indexes[n].unique
    {
      var i :| 0 <= i < |d.indexes| && n == IndexName(d.table, d.indexes[i].suffix) && ModelOf(d).indexes[n] == IndexBody(d.indexes[i].columns, d.indexes[i].unique);
    }
    assert Keys(d.references)[0] == ForeignKey("repo_id", parent.table, "id");
  }

  lemma JobsOutOfDate(repos: seq<Row>, jobs: seq<Row>)
    requires Fits(ModelOf(IMPORT_JOBS).shape, Project(jobs, ModelOf(IMPORT_JOBS).shape.columns))
    requires forall r | r in jobs :: IsParent(repos, "id", Cell(r, "repo_id"))
    ensures OutOfDate("repos", PHASE.table, Table(ModelOf(REPOS).shape, repos),
                      Table(ModelOf(EarlierJobs(IMPORT_JOBS.vocabularies[0])).shape, jobs), ModelOf(IMPORT_JOBS))
  {
    assert forall x | x in IMPORT_JOBS.indexes :: !x.unique;
    OlderIsOutOfDate(REPOS, IMPORT_JOBS, [IMPORT_JOBS.vocabularies[0], Vocabulary("phase", EARLIER_PHASE)], PHASE.table, repos, jobs);
  }

  lemma NamesDiffer()
    ensures "users" != "repos" && "users" != PHASE.table && "repos" != PHASE.table && "repos" != TempName(PHASE.table)
  {
  }

  lemma ShippedReferences()
    ensures ReferencesKnown(SHIPPED, MODELS, "users")
  {
    DeclarationsSound();
    DeclarationsTagged();
    KnownReferences(DECLARATIONS, SHIPPED);
  }

  /** The manifest lists no index but on `repos`, and no constraint of the three tables but one. */
  predicate ListsLittle(man: Manifest) {
    && (forall x | x in man.indexes :: x.table == "repos")
    && (forall f | f in man.checks :: f.table == "users" || f.table == "repos" || f.table == PHASE.table ==> f == PHASE)
  }

  lemma OnlyPhaseIsThere()
    ensures ListsLittle(SHIPPED)
  {
    PhaseDeclared();
    forall x | x in INDEXES
      ensures x.table == "repos"
    {
      ReposIndexed(x);
    }
    forall f | f in CHECKS && (f.table == "users" || f.table == "repos" || f.table == "import_jobs")
      ensures f == PHASE
    {
      OnlyPhase(f);
    }
  }

  lemma PhaseOfJobs()
    ensures PHASE in SHIPPED.checks && PHASE.table in MODELS && MODELS[PHASE.table] == ModelOf(IMPORT_JOBS)
  {
    PhaseDeclared();
    JobsModel();
    assert PHASE == CHECKS[4];
  }

  lemma ReposIndexed(x: IndexEntry)
    requires x in INDEXES
    ensures x.table == "repos"
  {
  }

  /** What is shipped, as far as these three tables are concerned. */
  predicate ShippedAround(man: Manifest, models: map<string, Model>) {
    && Coherent(man, models) && ReferencesKnown(man, models, "users")
    && PHASE in man.checks && PHASE.table in models && models[PHASE.table] == ModelOf(IMPORT_JOBS)
    && "repos" in models && models["repos"] == ModelOf(REPOS)
    && ListsLittle(man)
  }

  lemma ShippedIsAround()
    ensures ShippedAround(SHIPPED, MODELS)
  {
    ShippedIsCoherent();
    ShippedReferences();
    PhaseOfJobs();
    JobsModel();
    OnlyPhaseIsThere();
  }

  /** The three tables as they were, with what the migration needs of them. */
  predicate EarlierTables(u: Table, p: Table, t: Table) {
    && Referable(u) && OutOfDate("repos", PHASE.table, p, t, ModelOf(IMPORT_JOBS))
    && "id" in t.shape.columns && ["id"] in t.shape.uniques && Rewritable(t)
  }

  lemma EarlierIsRepairable(dialect: Dialect, man: Manifest, models: map<string, Model>, create: bool, u: Table, p: Table, t: Table, db: Database)
    requires ShippedAround(man, models) && EarlierTables(u, p, t)
    requires db == ThreeTables("users", "repos", PHASE.table, u, p, t, ModelOf(REPOS), ModelOf(IMPORT_JOBS))
    ensures Repairable(dialect, db, man, models, create)
  {
    NamesDiffer();
    ThreeRepairable(dialect, man, models, create, "users", "repos", PHASE, u, p, t, db);
  }

  /** The import jobs meet today's model and have their repositories; `users` can be referred to. */
  predicate FitsToday(users: Table, repos: seq<Row>, jobs: seq<Row>) {
    && Referable(users)
    && RowsWithin(users) && RowsWithin(Table(ModelOf(REPOS).shape, repos)) && RowsWithin(Table(ModelOf(IMPORT_JOBS).shape, jobs))
    && Fits(ModelOf(IMPORT_JOBS).shape, Project(jobs, ModelOf(IMPORT_JOBS).shape.columns))
    && (forall r | r in jobs :: IsParent(repos, "id", Cell(r, "repo_id")))
  }

  lemma EarlierJobsHaveId(modes: Vocabulary)
    ensures "id" in ModelOf(EarlierJobs(modes)).shape.columns && ["id"] in ModelOf(EarlierJobs(modes)).shape.uniques
  {
    assert ColumnsOf(EarlierJobs(modes))[0] == "id" && ModelOf(EarlierJobs(modes)).shape.uniques[0] == ["id"];
  }

  lemma SameColumnsWithin(a: Table, b: Table)
    requires RowsWithin(a) && a.rows == b.rows && a.shape.columns == b.shape.columns
    ensures RowsWithin(b)
  {
  }

  lemma EarlierJobsWithin(modes: Vocabulary, jobs: seq<Row>)
    requires RowsWithin(Table(ModelOf(IMPORT_JOBS).shape, jobs))
    ensures RowsWithin(Table(ModelOf(EarlierJobs(modes)).shape, jobs))
  {
    SameColumnsWithin(Table(ModelOf(IMPORT_JOBS).shape, jobs), Table(ModelOf(EarlierJobs(modes)).shape, jobs));
  }

  lemma EarlierTable(users: Table, repos: seq<Row>, jobs: seq<Row>, p: Table, t: Table)
    requires FitsToday(users, repos, jobs)
    requires p == Table(ModelOf(REPOS).shape, repos) && t == Table(ModelOf(EarlierJobs(IMPORT_JOBS.vocabularies[0])).shape, jobs)
    ensures EarlierTables(users, p, t) && RowsWithin(p) && RowsWithin(t)
  {
    JobsOutOfDate(repos, jobs);
    EarlierRewritable(jobs);
    EarlierJobsHaveId(IMPORT_JOBS.vocabularies[0]);
    EarlierJobsWithin(IMPORT_JOBS.vocabularies[0], jobs);
  }

  lemma EarlierUnsatisfied(users: Table, repos: seq<Row>, jobs: seq<Row>)
    requires FitsToday(users, repos, jobs)
    ensures !Satisfied(EarlierDb(users, repos, jobs), PHASE)
  {
    EarlierRewritable(jobs);
  }

  lemma EarlierHasThem(users: Table, repos: seq<Row>, jobs: seq<Row>) returns (p: Table, t: Table, db: Database)
    requires FitsToday(users, repos, jobs)
    ensures db == EarlierDb(users, repos, jobs) == ThreeTables("users", "repos", PHASE.table, users, p, t, ModelOf(REPOS), ModelOf(IMPORT_JOBS))
    ensures EarlierTables(users, p, t) && RowsWithin(p) && RowsWithin(t)
  {
    p := Table(ModelOf(REPOS).shape, repos);
    t := Table(ModelOf(EarlierJobs(IMPORT_JOBS.vocabularies[0])).shape, jobs);
    db := EarlierDb(users, repos, jobs);
    EarlierTable(users, repos, jobs, p, t);
  }

  lemma ThreeAreWellFormed(u: Table, p: Table, t: Table, pm: Model, m: Model, db: Database)
    requires RowsWithin(u) && RowsWithin(p) && RowsWithin(t)
    requires db == ThreeTables("users", "repos", PHASE.table, u, p, t, pm, m)
    ensures WellFormed(db)
  {
  }

  /** Whatever users, repositories and import jobs it holds, with the indexes of its tables, as long
      as the jobs meet today's model: such a database lacks the constraint, and the migration does
      not raise on it. */
  lemma BeforeValidate(dialect: Dialect, create: bool, users: Table, repos: seq<Row>, jobs: seq<Row>)
    requires FitsToday(users, repos, jobs)
    ensures WellFormed(EarlierDb(users, repos, jobs))
    ensures Repairable(dialect, EarlierDb(users, repos, jobs), SHIPPED, MODELS, create)
    ensures PHASE in SHIPPED.checks && !Satisfied(EarlierDb(users, repos, jobs), PHASE)
  {
    ShippedIsAround();
    EarlierUnsatisfied(users, repos, jobs);
    var p, t, db := EarlierHasThem(users, repos, jobs);
    ThreeAreWellFormed(users, p, t, ModelOf(REPOS), ModelOf(IMPORT_JOBS), db);
    EarlierIsRepairable(dialect, SHIPPED, MODELS, create, users, p, t, db);
  }

  // --------------------------------------------------------------------- no slug twice

  /** No value of the column stands in two rows. */
  predicate NoneTwice(rows: seq<Row>, column: string) {
    forall i, j | 0 <= i < j < |rows| :: Cell(rows[i], column).Null? || Cell(rows[i], column) != Cell(rows[j], column)
  }

  lemma DistinctAlone(rows: seq<Row>, column: string)
    requires Distinct(rows, [column])
    ensures NoneTwice(rows, column)
  {
    assert [column][0] == column;
    forall i, j | 0 <= i < j < |rows|
      ensures Cell(rows[i], column).Null? || Cell(rows[i], column) != Cell(rows[j], column)
    {
      assert !Collide(rows[i], rows[j], [column]);
    }
  }

  /** The name is free, or is that of the very index. */
  predicate FreeOrOwn(db: Database, e: IndexEntry) {
    e.name in db.indexes ==> db.indexes[e.name] == Index(e.table, e.body)
  }

  lemma SlugEntry()
    ensures INDEXES[0] in SHIPPED.indexes
    ensures INDEXES[0] == IndexEntry("ix_repos_slug", "repos", IndexBody(["slug"], true))
  {
  }

  lemma EntryIsUnique(was: Database, now: Database, man: Manifest, e: IndexEntry, column: string)
    requires WellFormed(was) && UniquesHold(was) && IndexesEntered(was, now, man)
    requires e in man.indexes && FreeOrOwn(was, e) && e.body == IndexBody([column], true) && e.table in now.tables
    ensures NoneTwice(now.tables[e.table].rows, column)
  {
    UniqueEntryHolds(now, e);
    DistinctAlone(now.tables[e.table].rows, column);
  }

  method EnsureUnique(conn: Connection, man: Manifest, models: map<string, Model>, create: bool, ghost e: IndexEntry, ghost column: string)
    returns (r: AgentHubMigrate.Outcome)
    requires conn.saved.None? && WellFormed(conn.db) && Coherent(man, models)
    requires e in man.indexes && e.body == IndexBody([column], true)
    modifies conn
    ensures r.Finished? && UniquesHold(old(conn.db)) && FreeOrOwn(old(conn.db), e) && e.table in conn.db.tables ==>
              NoneTwice(conn.db.tables[e.table].rows, column)
  {
    ghost var was := conn.db;
    r := EnsureSchema(conn, man, models, create);
    if r.Finished? && UniquesHold(was) && FreeOrOwn(was, e) && e.table in conn.db.tables {
      EntryIsUnique(was, conn.db, man, e, column);
    }
  }

  /** `ensure_schema(engine)` as the application calls it: unless `ix_repos_slug` names something
      else before the call, no two repositories have one slug after it. */
  method EnsureShipped(conn: Connection, create: bool) returns (r: AgentHubMigrate.Outcome)
    requires conn.saved.None? && WellFormed(conn.db)
    modifies conn
    ensures r.Finished? && UniquesHold(old(conn.db)) && FreeOrOwn(old(conn.db), INDEXES[0]) && "repos" in conn.db.tables ==>
              NoneTwice(conn.db.tables["repos"].rows, "slug")
  {
    ShippedIsCoherent();
    SlugEntry();
    r := EnsureUnique(conn, SHIPPED, MODELS, create, INDEXES[0], "slug");
  }

  // ------------------------------------------------------------------- a name that is taken

  /** Any table without listed constraints can have one. */
  lemma TakenBy(dialect: Dialect, man: Manifest, e: IndexEntry, other: string) returns (db: Database)
    requires e in man.indexes && !IsTemp(man, e.table) && other != e.table && Untouched(dialect, man, other)
    ensures WellFormed(db) && Integrity(db) && Taken(dialect, db, man, e)
  {
    var t := Table(Shape([], {}, [], [], []), []);
    db := Database(map[e.table := t, other := t], map[e.name := Index(other, IndexBody([], false))]);
  }

  lemma ArchiveUnlisted(i: nat)
    requires i < |CHECKS|
    ensures CHECKS[i].table != "archive"
  {
  }

  /** A table of somebody else's has an index called `ix_repos_slug`. */
  lemma ATakenName(dialect: Dialect) returns (db: Database)
    ensures WellFormed(db) && Integrity(db) && Taken(dialect, db, SHIPPED, INDEXES[0])
  {
    forall i | 0 <= i < |CHECKS|
      ensures CHECKS[i].table != "archive"
    {
      ArchiveUnlisted(i);
    }
    NoTemporaryName(SHIPPED, "archive");
    NoTemporaryName(SHIPPED, "repos");
    db := TakenBy(dialect, SHIPPED, INDEXES[0], "archive");
  }
}
