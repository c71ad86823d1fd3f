/** The Agent Hub's migration manifest and what has to be true of it
    (backend/models/agent_hub_migrate.py, lines 66-145). */
module AgentHubSchema {
  import opened Basics
  import opened CheckText
  import opened Databases
  import opened TableRebuild

  datatype ColumnEntry = ColumnEntry(table: string, column: string)

  datatype IndexEntry = IndexEntry(name: string, table: string, body: IndexBody)

  datatype CheckEntry = CheckEntry(table: string, name: string, column: string, values: seq<string>)

  datatype Manifest = Manifest(
    tables: seq<string>,
    columns: seq<ColumnEntry>,
    indexes: seq<IndexEntry>,
    checks: seq<CheckEntry>)

  // --------------------------------------------------------------- the state to arrive at

  function LiveChecks(db: Database, table: string): seq<Check> {
    if table in db.tables then db.tables[table].shape.checks else []
  }

  predicate HasColumn(db: Database, e: ColumnEntry) {
    e.table in db.tables ==> e.column in db.tables[e.table].shape.columns
  }

  predicate HasIndex(db: Database, e: IndexEntry) {
    e.table in db.tables ==> e.name in db.indexes && db.indexes[e.name].table == e.table
  }

  /** The index of that name is the entry's own: its table, its columns, its uniqueness. */
  predicate StandsAs(db: Database, e: IndexEntry) {
    e.table in db.tables ==> e.name in db.indexes && db.indexes[e.name] == Index(e.table, e.body)
  }

  predicate Satisfied(db: Database, e: CheckEntry) {
    e.table in db.tables ==> Admits(LiveChecks(db, e.table), e.name, e.values)
  }

  /** Every listed column and index of every table that exists. */
  predicate Standing(db: Database, man: Manifest) {
    && (forall e | e in man.columns :: HasColumn(db, e))
    && (forall e | e in man.indexes :: HasIndex(db, e))
  }

  /** Nothing left to do; without `create`, absent tables are nobody's business. */
  predicate Current(db: Database, man: Manifest, create: bool) {
    && (create ==> forall t | t in man.tables :: t in db.tables)
    && Standing(db, man)
    && (forall e | e in man.checks :: Satisfied(db, e))
  }

  // ---------------------------------------------------------- what the declarations promise

  predicate IsTemp(man: Manifest, table: string) {
    exists e | e in man.checks :: table == TempName(e.table)
  }

  /** Two entries of one table: different names, and neither column is a word of the other's
      constraint. */
  predicate Apart(e: CheckEntry, f: CheckEntry) {
    e.table == f.table && e != f ==>
      e.name != f.name && f.column != e.column && f.column != "IN" && forall v | v in e.values :: f.column !in WordsOf(v)
  }

  /** What the manifest promises by itself. */
  predicate SelfConsistent(man: Manifest) {
    && (forall e | e in man.checks :: e.name != "" && e.values != [] && Identifier(e.column) && forall v | v in e.values :: QuoteFree(v))
    && (forall e, f | e in man.checks && f in man.checks :: Apart(e, f))
    && AllDistinct(man.columns) && AllDistinct(man.tables)
    && (forall t | t in man.tables :: !IsTemp(man, t))
    && (forall e | e in man.checks :: !IsTemp(man, e.table))
  }

  /** The maintenance rule: what the manifest lists, the models declare. */
  predicate ListsTheModels(man: Manifest, models: map<string, Model>) {
    && (forall t | t in man.tables :: t in models)
    && (forall e | e in man.columns :: e.table in models && e.column in models[e.table].shape.columns)
    && (forall e | e in man.indexes :: e.table in models && DeclaresAs(models[e.table], e))
    && (forall e | e in man.checks :: e.table in models && !models[e.table].quoted
          && Admits(models[e.table].shape.checks, e.name, e.values))
    && (forall e, f, k | e in man.checks && f in man.checks && e.table == f.table && e != f && k in models[e.table].shape.checks ::
          k.name == f.name ==> !Mentions(k.text, e.column))
  }

  predicate DeclaresAs(m: Model, e: IndexEntry) {
    e.name in m.indexes && m.indexes[e.name] == e.body
  }

  predicate KeyDeclared(man: Manifest, models: map<string, Model>, k: ForeignKey) {
    !IsTemp(man, k.table) && (k.table in models ==> DeclaresKey(models[k.table], k.target))
  }

  /** A column that is declared unique by itself. */
  predicate DeclaresKey(m: Model, column: string) {
    column in m.shape.columns && [column] in m.shape.uniques
  }

  /** No two models share an index name. */
  predicate IndexNamesUnique(models: map<string, Model>) {
    forall t, n | t in models && n in models[t].indexes :: IndexOwner(models, t, n)
  }

  predicate IndexOwner(models: map<string, Model>, table: string, n: string) {
    forall u | u in models && n in models[u].indexes :: u == table
  }

  predicate DeclaredIndex(models: map<string, Model>, table: string, n: string) {
    table in models && n in models[table].indexes
  }

  lemma OneOwner(models: map<string, Model>, t: string, u: string, n: string)
    requires IndexNamesUnique(models) && DeclaredIndex(models, t, n) && DeclaredIndex(models, u, n)
    ensures t == u
  {
    assert IndexOwner(models, t, n);
  }

  predicate IndexColumnsDeclared(models: map<string, Model>) {
    forall t, n | t in models && n in models[t].indexes :: forall c | c in models[t].indexes[n].columns :: c in models[t].shape.columns
  }

  predicate KeysDeclared(man: Manifest, models: map<string, Model>) {
    forall t, k | t in models && k in models[t].shape.foreignKeys ::
      k.column in models[t].shape.columns && KeyDeclared(man, models, k)
  }

  /** The models among themselves. */
  predicate ModelsAgree(man: Manifest, models: map<string, Model>) {
    IndexNamesUnique(models) && IndexColumnsDeclared(models) && KeysDeclared(man, models)
  }

  predicate Coherent(man: Manifest, models: map<string, Model>) {
    SelfConsistent(man) && ListsTheModels(man, models) && ModelsAgree(man, models)
  }

  // --------------------------------------------------------------- what the database owes

  /** No listed index name is used by another table. */
  predicate NamesFree(db: Database, man: Manifest) {
    forall e | e in man.indexes && e.name in db.indexes :: db.indexes[e.name].table == e.table
  }

  /** No constraint carrying a listed name mentions another listed column of its table. */
  predicate Undisturbed(db: Database, man: Manifest) {
    forall e, f, k | e in man.checks && f in man.checks && e.table == f.table && e != f && k in LiveChecks(db, e.table) ::
      k.name == f.name ==> !Mentions(k.text, e.column)
  }

  predicate Clean(dialect: Dialect, db: Database, man: Manifest) {
    NamesFree(db, man) && (dialect.PostgreSQL? ==> Undisturbed(db, man))
  }
}
