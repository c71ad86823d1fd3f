/** The shipped manifest and the shipped models keep every rule the migration relies on. */
module AgentHubCoherence {
  import opened Basics
  import opened CheckText
  import opened Databases
  import opened TableRebuild
  import opened AgentHubSchema
  import opened AgentHubManifest
  import opened AgentHubModels

  // ----------------------------------------------------------- one declaration among others

  /** Indexes and references are on declared columns, and no reference is to a temporary table. */
  predicate Sound(d: Declaration) {
    ReferencesSound(d) && IndexesSound(d)
  }

  predicate AllSound(declarations: seq<Declaration>) {
    forall d | d in declarations :: Sound(d)
  }

  predicate ReferencesSound(d: Declaration) {
    forall r | r in d.references :: r.column in d.columns && Known(r.table)
  }

  predicate Known(table: string) {
    table == "users" || table in TABLES
  }

  predicate IndexesSound(d: Declaration) {
    forall x | x in d.indexes :: forall c | c in x.columns :: c in d.columns
  }

  predicate DistinctTables(declarations: seq<Declaration>) {
    forall i, j | 0 <= i < j < |declarations| :: declarations[i].table != declarations[j].table
  }

  predicate Declares(declarations: seq<Declaration>, t: string) {
    exists i | 0 <= i < |declarations| :: declarations[i].table == t
  }

  lemma DeclaredLater(declarations: seq<Declaration>, t: string)
    requires declarations != [] && Declares(declarations[1..], t)
    ensures Declares(declarations, t)
  {
    var i :| 0 <= i < |declarations[1..]| && declarations[1..][i].table == t;
    assert declarations[i + 1].table == t;
  }

  lemma {:induction false} OnlyTheirTables(declarations: seq<Declaration>, t: string)
    requires t in ModelsOf(declarations)
    ensures Declares(declarations, t)
    decreases |declarations|
  {
    if t != declarations[0].table {
      OnlyTheirTables(declarations[1..], t);
      DeclaredLater(declarations, t);
    }
  }

  lemma {:induction false} ModelAt(declarations: seq<Declaration>, i: nat)
    requires DistinctTables(declarations) && i < |declarations|
    ensures declarations[i].table in ModelsOf(declarations)
    ensures ModelsOf(declarations)[declarations[i].table] == ModelOf(declarations[i])
    decreases |declarations|
  {
    if i > 0 {
      var rest := declarations[1..];
      assert forall k | 0 <= k < |rest| :: rest[k] == declarations[k + 1];
      ModelAt(rest, i - 1);
    }
  }

  lemma ModelsOfExact(declarations: seq<Declaration>)
    requires DistinctTables(declarations)
    ensures forall t | t in ModelsOf(declarations) :: Declares(declarations, t)
    ensures forall i | 0 <= i < |declarations| ::
              declarations[i].table in ModelsOf(declarations) && ModelsOf(declarations)[declarations[i].table] == ModelOf(declarations[i])
  {
    forall t | t in ModelsOf(declarations)
      ensures Declares(declarations, t)
    {
      OnlyTheirTables(declarations, t);
    }
    forall i | 0 <= i < |declarations|
      ensures declarations[i].table in ModelsOf(declarations) && ModelsOf(declarations)[declarations[i].table] == ModelOf(declarations[i])
    {
      ModelAt(declarations, i);
    }
  }

  lemma KnownIsNotTemporary(table: string)
    requires Known(table)
    ensures NotTemporary(table)
  {
    TableNames();
  }

  lemma KeysOfDeclaration(d: Declaration, k: ForeignKey)
    requires Sound(d) && k in ModelOf(d).shape.foreignKeys
    ensures k.column in ModelOf(d).shape.columns && Known(k.table) && k.target == "id"
  {
    var i :| 0 <= i < |d.references| && Keys(d.references)[i] == k;
    assert d.references[i] in d.references;
  }

  lemma IndexesOfDeclaration(d: Declaration, n: string)
    requires Sound(d) && n in ModelOf(d).indexes
    ensures forall c | c in ModelOf(d).indexes[n].columns :: c in ModelOf(d).shape.columns
  {
    var i :| 0 <= i < |d.indexes| && n == IndexName(d.table, d.indexes[i].suffix) && ModelOf(d).indexes[n] == IndexBody(d.indexes[i].columns, d.indexes[i].unique);
    assert d.indexes[i] in d.indexes;
  }

  // -------------------------------------------------------------------- whose index is it

  function At(s: string, k: nat): char {
    if k < |s| then s[k] else ' '
  }

  /** Which of the fifteen a name beginning with a table's name begins with. */
  function Tag(s: string): nat {
    match At(s, 0)
    case 'i' => 2
    case 'a' => 6
    case 'g' => 13
    case 'w' => 14
    case 'c' => if At(s, 6) == 's' then 7 else if At(s, 6) == 'v' then 8 else 9
    case 'f' => if At(s, 7) == 's' then 10 else if At(s, 10) == 'e' then 11 else 12
    case _ =>
      if At(s, 2) == 'v' then 5
      else if At(s, 4) == 's' then 0
      else if At(s, 5) == 'r' then 1
      else if At(s, 5) == 'i' then 3
      else 4
  }

  /** The last character `Tag` looks at. */
  function TagEnd(s: string): nat {
    match At(s, 0)
    case 'i' => 0
    case 'a' => 0
    case 'g' => 0
    case 'w' => 0
    case 'c' => 6
    case 'f' => if At(s, 7) == 's' then 7 else 10
    case _ => if At(s, 2) == 'v' then 2 else if At(s, 4) == 's' then 4 else 5
  }

  lemma AtPrefix(table: string, rest: string, k: nat)
    requires k < |table|
    ensures At(table + rest, k) == At(table, k)
  {
  }

  lemma TagOfPrefix(table: string, rest: string)
    requires TagEnd(table) < |table|
    ensures Tag(table + rest) == Tag(table)
  {
    forall k: nat | k < |table|
      ensures At(table + rest, k) == At(table, k)
    {
      AtPrefix(table, rest, k);
    }
  }

  predicate Tagged(table: string, i: nat) {
    TagEnd(table) < |table| && Tag(table) == i
  }

  /** Index names of different tables differ, whatever their suffixes. */
  lemma IndexNamesDiffer(t: string, u: string, i: nat, j: nat, a: string, b: string)
    requires Tagged(t, i) && Tagged(u, j) && i != j
    ensures IndexName(t, a) != IndexName(u, b)
  {
    TagOfPrefix(t, "_" + a);
    TagOfPrefix(u, "_" + b);
    assert IndexName(t, a)[3..] == t + ("_" + a);
    assert IndexName(u, b)[3..] == u + ("_" + b);
  }

  predicate AllTagged(declarations: seq<Declaration>) {
    forall i | 0 <= i < |declarations| :: Tagged(declarations[i].table, i)
  }

  lemma TaggedOwner(declarations: seq<Declaration>, i: nat, n: string)
    requires AllTagged(declarations) && DistinctTables(declarations) && i < |declarations|
    requires n in ModelOf(declarations[i]).indexes
    ensures IndexOwner(ModelsOf(declarations), declarations[i].table, n)
  {
    var models := ModelsOf(declarations);
    ModelsOfExact(declarations);
    forall u | u in models && n in models[u].indexes
      ensures u == declarations[i].table
    {
      var j :| 0 <= j < |declarations| && declarations[j].table == u;
      SameTag(declarations[i], declarations[j], i, j, n);
    }
  }

  lemma SameTag(d: Declaration, e: Declaration, i: nat, j: nat, n: string)
    requires Tagged(d.table, i) && Tagged(e.table, j)
    requires n in ModelOf(d).indexes && n in ModelOf(e).indexes
    ensures i == j
  {
    var a :| 0 <= a < |d.indexes| && n == IndexName(d.table, d.indexes[a].suffix);
    var b :| 0 <= b < |e.indexes| && n == IndexName(e.table, e.indexes[b].suffix);
    if i != j {
      IndexNamesDiffer(d.table, e.table, i, j, d.indexes[a].suffix, e.indexes[b].suffix);
    }
  }

  // ------------------------------------------------------------------- the models agree

  lemma KeyAgrees(man: Manifest, declarations: seq<Declaration>, d: Declaration, k: ForeignKey)
    requires DistinctTables(declarations) && Sound(d) && k in ModelOf(d).shape.foreignKeys
    ensures k.column in ModelOf(d).shape.columns && KeyDeclared(man, ModelsOf(declarations), k)
  {
    KeysOfDeclaration(d, k);
    KnownIsNotTemporary(k.table);
    NoTemporaryName(man, k.table);
    IdDeclared(declarations, k.table);
  }

  lemma KeysAgree(man: Manifest, declarations: seq<Declaration>)
    requires DistinctTables(declarations) && AllSound(declarations)
    ensures KeysDeclared(man, ModelsOf(declarations))
  {
    var models := ModelsOf(declarations);
    ModelsOfExact(declarations);
    forall t, k | t in models && k in models[t].shape.foreignKeys
      ensures k.column in models[t].shape.columns && KeyDeclared(man, models, k)
    {
      var i :| 0 <= i < |declarations| && declarations[i].table == t;
      KeyAgrees(man, declarations, declarations[i], k);
    }
  }

  lemma IndexesAgree(declarations: seq<Declaration>)
    requires AllTagged(declarations) && DistinctTables(declarations) && AllSound(declarations)
    ensures IndexNamesUnique(ModelsOf(declarations)) && IndexColumnsDeclared(ModelsOf(declarations))
  {
    var models := ModelsOf(declarations);
    ModelsOfExact(declarations);
    forall t, n | t in models && n in models[t].indexes
      ensures IndexOwner(models, t, n) && forall c | c in models[t].indexes[n].columns :: c in models[t].shape.columns
    {
      var i :| 0 <= i < |declarations| && declarations[i].table == t;
      TaggedOwner(declarations, i, n);
      IndexesOfDeclaration(declarations[i], n);
    }
  }

  lemma IdDeclared(declarations: seq<Declaration>, t: string)
    requires DistinctTables(declarations)
    ensures t in ModelsOf(declarations) ==> "id" in ModelsOf(declarations)[t].shape.columns
  {
    ModelsOfExact(declarations);
    if t in ModelsOf(declarations) {
      var i :| 0 <= i < |declarations| && declarations[i].table == t;
      assert ColumnsOf(declarations[i])[0] == "id";
    }
  }

  // -------------------------------------------------------- the manifest lists the models

  predicate DistinctColumns(vocabularies: seq<Vocabulary>) {
    forall i, j | 0 <= i < j < |vocabularies| :: vocabularies[i].column != vocabularies[j].column
  }

  /** The entry is one of the vocabularies of the declaration. */
  predicate Lists(d: Declaration, e: CheckEntry) {
    && e.table == d.table && e.name == CheckName(d.table, e.column)
    && Vocabulary(e.column, e.values) in d.vocabularies && DistinctColumns(d.vocabularies)
  }

  lemma SameName(table: string, a: string, b: string)
    requires CheckName(table, a) == CheckName(table, b)
    ensures a == b
  {
    assert CheckName(table, a)[|table| + 4..] == a;
    assert CheckName(table, b)[|table| + 4..] == b;
  }

  lemma OnlyItsName(d: Declaration, e: CheckEntry, k: Check)
    requires Lists(d, e) && k in ModelOf(d).shape.checks && k.name == e.name
    ensures k == Generated(e.name, e.column, e.values)
  {
    var i :| 0 <= i < |d.vocabularies| && Checks(d.table, d.vocabularies)[i] == k;
    var j :| 0 <= j < |d.vocabularies| && d.vocabularies[j] == Vocabulary(e.column, e.values);
    SameName(d.table, d.vocabularies[i].column, e.column);
  }

  lemma {:induction false} AdmitsListed(checks: seq<Check>, k: Check, values: seq<string>)
    requires k in checks && Elements(values) <= CheckLiterals(k.text)
    requires forall c | c in checks && c.name == k.name :: c == k
    ensures Admits(checks, k.name, values)
    decreases |checks|
  {
    assert checks[0] in checks;
    if checks[0].name != k.name {
      assert checks == [checks[0]] + checks[1..];
      AdmitsListed(checks[1..], k, values);
    }
  }

  lemma EntryAdmitted(d: Declaration, e: CheckEntry)
    requires Lists(d, e) && QuoteFree(e.column) && forall v | v in e.values :: QuoteFree(v)
    ensures Admits(ModelOf(d).shape.checks, e.name, e.values)
  {
    var checks := Checks(d.table, d.vocabularies);
    var i :| 0 <= i < |d.vocabularies| && d.vocabularies[i] == Vocabulary(e.column, e.values);
    InCheckLiterals(e.column, e.values);
    assert checks[i] == Generated(e.name, e.column, e.values);
    forall c | c in checks && c.name == e.name
      ensures c == checks[i]
    {
      OnlyItsName(d, e, c);
    }
    AdmitsListed(checks, checks[i], e.values);
  }

  lemma EntryMentions(d: Declaration, e: CheckEntry, f: CheckEntry, k: Check)
    requires Lists(d, f) && e.table == f.table && e != f && Apart(f, e) && Identifier(e.column) && Identifier(f.column)
    requires k in ModelOf(d).shape.checks && k.name == f.name
    ensures !Mentions(k.text, e.column)
  {
    OnlyItsName(d, f, k);
    InCheckMentions(f.column, f.values, e.column);
  }

  predicate ColumnDeclared(declarations: seq<Declaration>, e: ColumnEntry) {
    exists d | d in declarations :: d.table == e.table && e.column in d.columns
  }

  predicate IndexDeclared(declarations: seq<Declaration>, e: IndexEntry) {
    exists d | d in declarations :: d.table == e.table && DeclaresAs(ModelOf(d), e)
  }

  predicate CheckDeclared(declarations: seq<Declaration>, e: CheckEntry) {
    exists d | d in declarations :: Lists(d, e)
  }

  /** The manifest's entries, each beside its declaration. */
  predicate Describes(declarations: seq<Declaration>, man: Manifest) {
    && (forall t | t in man.tables :: Declares(declarations, t))
    && (forall e | e in man.columns :: ColumnDeclared(declarations, e))
    && (forall e | e in man.indexes :: IndexDeclared(declarations, e))
    && (forall e | e in man.checks :: CheckDeclared(declarations, e))
  }

  /** What the maintenance rule says of one entry and the model of its table. */
  predicate EntryListed(man: Manifest, m: Model, e: CheckEntry) {
    && !m.quoted && Admits(m.shape.checks, e.name, e.values)
    && (forall f, k | f in man.checks && e.table == f.table && e != f && k in m.shape.checks ::
          k.name == f.name ==> !Mentions(k.text, e.column))
  }

  lemma EntryOfDeclaration(d: Declaration, man: Manifest, e: CheckEntry)
    requires SelfConsistent(man) && e in man.checks && e.table == d.table
    requires forall f | f in man.checks && f.table == d.table :: Lists(d, f)
    ensures EntryListed(man, ModelOf(d), e)
  {
    IdentifierIsQuoteFree(e.column);
    EntryAdmitted(d, e);
    forall f, k | f in man.checks && e.table == f.table && e != f && k in ModelOf(d).shape.checks && k.name == f.name
      ensures !Mentions(k.text, e.column)
    {
      EntryMentions(d, e, f, k);
    }
  }

  lemma ModelOfMember(declarations: seq<Declaration>, d: Declaration)
    requires DistinctTables(declarations) && d in declarations
    ensures d.table in ModelsOf(declarations) && ModelsOf(declarations)[d.table] == ModelOf(d)
    ensures forall e | e in declarations && e.table == d.table :: e == d
  {
    var i :| 0 <= i < |declarations| && declarations[i] == d;
    ModelAt(declarations, i);
  }

  lemma ChecksListed(declarations: seq<Declaration>, man: Manifest, e: CheckEntry)
    requires DistinctTables(declarations) && Describes(declarations, man) && SelfConsistent(man) && e in man.checks
    ensures e.table in ModelsOf(declarations) && EntryListed(man, ModelsOf(declarations)[e.table], e)
  {
    var d :| d in declarations && Lists(d, e);
    ModelOfMember(declarations, d);
    forall f | f in man.checks && f.table == e.table
      ensures Lists(d, f)
    {
      var other :| other in declarations && Lists(other, f);
      assert other == d;
    }
    EntryOfDeclaration(d, man, e);
  }

  lemma ColumnsListed(declarations: seq<Declaration>, man: Manifest)
    requires DistinctTables(declarations) && Describes(declarations, man)
    ensures var models := ModelsOf(declarations);
      && (forall t | t in man.tables :: t in models)
      && (forall e | e in man.columns :: e.table in models && e.column in models[e.table].shape.columns)
      && (forall e | e in man.indexes :: e.table in models && DeclaresAs(models[e.table], e))
  {
    ModelsOfExact(declarations);
    forall d | d in declarations
      ensures d.table in ModelsOf(declarations) && ModelsOf(declarations)[d.table] == ModelOf(d)
    {
      ModelOfMember(declarations, d);
    }
  }

  lemma DescribedIsListed(declarations: seq<Declaration>, man: Manifest)
    requires DistinctTables(declarations) && Describes(declarations, man) && SelfConsistent(man)
    ensures ListsTheModels(man, ModelsOf(declarations))
  {
    ColumnsListed(declarations, man);
    forall e | e in man.checks
      ensures e.table in ModelsOf(declarations) && EntryListed(man, ModelsOf(declarations)[e.table], e)
    {
      ChecksListed(declarations, man, e);
    }
  }

  // ---------------------------------------------------------------- what the application ships

  lemma RepoReference(d: Declaration)
    requires d.references == OF_REPO && d.columns != [] && d.columns[0] == "repo_id"
    ensures ReferencesSound(d)
  {
    assert TABLES[0] == "repos";
  }

  lemma ReposIndexes()
    ensures IndexesSound(REPOS)
  {
  }

  lemma ReposReferences()
    ensures ReferencesSound(REPOS)
  {
  }

  lemma RepoRunnersIndexes()
    ensures IndexesSound(REPO_RUNNERS)
  {
  }

  lemma ImportJobsIndexes()
    ensures IndexesSound(IMPORT_JOBS)
  {
  }

  lemma RepoIssuesIndexes()
    ensures IndexesSound(REPO_ISSUES)
  {
  }

  lemma RepoCommitsIndexes()
    ensures IndexesSound(REPO_COMMITS)
  {
  }

  lemma ReviewRunsIndexes()
    ensures IndexesSound(REVIEW_RUNS)
  {
  }

  lemma ReviewRunsReferences()
    ensures ReferencesSound(REVIEW_RUNS)
  {
  }

  lemma AgentTasksIndexes()
    ensures IndexesSound(AGENT_TASKS)
  {
  }

  lemma CheckSuiteSnapshotsIndexes()
    ensures IndexesSound(CHECK_SUITE_SNAPSHOTS)
  {
  }

  lemma CheckValidationsIndexes()
    ensures IndexesSound(CHECK_VALIDATIONS)
  {
  }

  lemma CheckRunsIndexes()
    ensures IndexesSound(CHECK_RUNS)
  {
  }

  lemma FindingsIndexes()
    ensures IndexesSound(FINDINGS)
  {
  }

  lemma FindingsReferences()
    ensures ReferencesSound(FINDINGS)
  {
  }

  lemma FindingEventsIndexes()
    ensures IndexesSound(FINDING_EVENTS)
  {
  }

  lemma FindingEventsReferences()
    ensures ReferencesSound(FINDING_EVENTS)
  {
  }

  lemma FindingEvidenceIndexes()
    ensures IndexesSound(FINDING_EVIDENCE)
  {
  }

  lemma FindingEvidenceReferences()
    ensures ReferencesSound(FINDING_EVIDENCE)
  {
  }

  lemma GitIdentitiesIndexes()
    ensures IndexesSound(GIT_IDENTITIES)
  {
  }

  lemma GitIdentitiesReferences()
    ensures ReferencesSound(GIT_IDENTITIES)
  {
  }

  lemma WebhookDeliveriesIndexes()
    ensures IndexesSound(WEBHOOK_DELIVERIES)
  {
  }

  lemma WebhookDeliveriesReferences()
    ensures ReferencesSound(WEBHOOK_DELIVERIES)
  {
  }

  lemma FiveSound(a: Declaration, b: Declaration, c: Declaration, d: Declaration, e: Declaration)
    requires Sound(a) && Sound(b) && Sound(c) && Sound(d) && Sound(e)
    ensures AllSound([a, b, c, d, e])
  {
  }

  lemma JoinedSound(a: seq<Declaration>, b: seq<Declaration>, c: seq<Declaration>)
    requires AllSound(a) && AllSound(b) && AllSound(c)
    ensures AllSound(a + b + c)
  {
  }

  lemma RepoTablesSound()
    ensures AllSound(REPO_TABLES)
  {
    ReposIndexes();
    ReposReferences();
    RepoRunnersIndexes();
    RepoReference(REPO_RUNNERS);
    ImportJobsIndexes();
    RepoReference(IMPORT_JOBS);
    RepoIssuesIndexes();
    RepoReference(REPO_ISSUES);
    RepoCommitsIndexes();
    RepoReference(REPO_COMMITS);
    FiveSound(REPOS, REPO_RUNNERS, IMPORT_JOBS, REPO_ISSUES, REPO_COMMITS);
  }

  lemma TaskTablesSound()
    ensures AllSound(TASK_TABLES)
  {
    ReviewRunsIndexes();
    ReviewRunsReferences();
    AgentTasksIndexes();
    RepoReference(AGENT_TASKS);
    CheckSuiteSnapshotsIndexes();
    RepoReference(CHECK_SUITE_SNAPSHOTS);
    CheckValidationsIndexes();
    RepoReference(CHECK_VALIDATIONS);
    CheckRunsIndexes();
    RepoReference(CHECK_RUNS);
    FiveSound(REVIEW_RUNS, AGENT_TASKS, CHECK_SUITE_SNAPSHOTS, CHECK_VALIDATIONS, CHECK_RUNS);
  }

  lemma FindingTablesSound()
    ensures AllSound(FINDING_TABLES)
  {
    FindingsIndexes();
    FindingsReferences();
    FindingEventsIndexes();
    FindingEventsReferences();
    FindingEvidenceIndexes();
    FindingEvidenceReferences();
    GitIdentitiesIndexes();
    GitIdentitiesReferences();
    WebhookDeliveriesIndexes();
    WebhookDeliveriesReferences();
    FiveSound(FINDINGS, FINDING_EVENTS, FINDING_EVIDENCE, GIT_IDENTITIES, WEBHOOK_DELIVERIES);
  }

  lemma DeclarationsSound()
    ensures AllSound(DECLARATIONS)
  {
    RepoTablesSound();
    TaskTablesSound();
    FindingTablesSound();
    JoinedSound(REPO_TABLES, TASK_TABLES, FINDING_TABLES);
  }

  lemma RepoTablesTagged()
    ensures Tagged(TABLES[0], 0) && Tagged(TABLES[1], 1) && Tagged(TABLES[2], 2) && Tagged(TABLES[3], 3) && Tagged(TABLES[4], 4)
  {
  }

  lemma TaskTablesTagged()
    ensures Tagged(TABLES[5], 5) && Tagged(TABLES[6], 6) && Tagged(TABLES[7], 7) && Tagged(TABLES[8], 8) && Tagged(TABLES[9], 9)
  {
  }

  lemma FindingTablesTagged()
    ensures Tagged(TABLES[10], 10) && Tagged(TABLES[11], 11) && Tagged(TABLES[12], 12) && Tagged(TABLES[13], 13) && Tagged(TABLES[14], 14)
  {
  }

  lemma TablesTagged(i: nat)
    requires i < |TABLES|
    ensures Tagged(TABLES[i], i)
  {
    RepoTablesTagged();
    TaskTablesTagged();
    FindingTablesTagged();
  }

  lemma TablesInOrder(i: nat)
    requires i < |DECLARATIONS|
    ensures |DECLARATIONS| == |TABLES| && DECLARATIONS[i].table == TABLES[i]
  {
  }

  lemma DeclarationsTagged()
    ensures AllTagged(DECLARATIONS) && DistinctTables(DECLARATIONS)
  {
    forall i | 0 <= i < |DECLARATIONS|
      ensures Tagged(DECLARATIONS[i].table, i)
    {
      TablesInOrder(i);
      TablesTagged(i);
    }
    TagsDiffer(DECLARATIONS);
  }

  lemma TagsDiffer(declarations: seq<Declaration>)
    requires AllTagged(declarations)
    ensures DistinctTables(declarations)
  {
    forall i, j | 0 <= i < j < |declarations|
      ensures declarations[i].table != declarations[j].table
    {
      assert Tagged(declarations[i].table, i) && Tagged(declarations[j].table, j);
    }
  }

  lemma TablesDeclared(t: string)
    requires t in TABLES
    ensures Declares(DECLARATIONS, t)
  {
    var i :| 0 <= i < |TABLES| && TABLES[i] == t;
    TablesInOrder(0);
    TablesInOrder(i);
  }

  lemma RepoColumnsListed()
    ensures forall c | c in REPO_COLUMNS :: c in REPOS.columns
  {
  }

  lemma TaskColumnsListed()
    ensures forall c | c in TASK_COLUMNS :: c in AGENT_TASKS.columns
  {
  }

  lemma RepoIndexNames()
    ensures INDEXES[0].name == IndexName("repos", "slug") && INDEXES[1].name == IndexName("repos", "sync_state")
  {
    assert "ix_" + ("repos" + "_") == "ix_repos_";
    NameAfterPrefix("repos", "slug");
    NameAfterPrefix("repos", "sync_state");
  }

  predicate DistinctSuffixes(specs: seq<IndexSpec>) {
    forall i, j | 0 <= i < j < |specs| :: specs[i].suffix != specs[j].suffix
  }

  lemma SameSuffix(table: string, a: string, b: string)
    requires IndexName(table, a) == IndexName(table, b)
    ensures a == b
  {
    assert IndexName(table, a)[|table| + 4..] == a;
    assert IndexName(table, b)[|table| + 4..] == b;
  }

  /** The index a declaration lists under a suffix is the one its model has. */
  lemma IndexAt(d: Declaration, i: nat)
    requires DistinctSuffixes(d.indexes) && i < |d.indexes|
    ensures var n := IndexName(d.table, d.indexes[i].suffix);
      n in ModelOf(d).indexes && ModelOf(d).indexes[n] == IndexBody(d.indexes[i].columns, d.indexes[i].unique)
  {
    var n := IndexName(d.table, d.indexes[i].suffix);
    var j :| 0 <= j < |d.indexes| && n == IndexName(d.table, d.indexes[j].suffix)
             && ModelOf(d).indexes[n] == IndexBody(d.indexes[j].columns, d.indexes[j].unique);
    SameSuffix(d.table, d.indexes[i].suffix, d.indexes[j].suffix);
  }

  lemma RepoIndexBodies()
    ensures REPOS.table == "repos" && |REPOS.indexes| == 2 && DistinctSuffixes(REPOS.indexes)
    ensures REPOS.indexes[0] == IndexSpec("slug", ["slug"], true)
    ensures REPOS.indexes[1] == IndexSpec("sync_state", ["sync_state"], false)
  {
  }

  lemma RepoIndexEntries()
    ensures |INDEXES| == 2 && INDEXES[0].table == "repos" && INDEXES[1].table == "repos"
    ensures INDEXES[0].body == IndexBody(["slug"], true) && INDEXES[1].body == IndexBody(["sync_state"], false)
  {
  }

  lemma RepoIndexesListed()
    ensures forall e | e in INDEXES :: e.table == "repos" && DeclaresAs(ModelOf(REPOS), e)
  {
    RepoIndexNames();
    RepoIndexBodies();
    RepoIndexEntries();
    EntriesOf(REPOS, INDEXES);
  }

  /** The entry lists one of the declaration's indexes. */
  predicate IsEntryOf(d: Declaration, e: IndexEntry, i: nat)
    requires i < |d.indexes|
  {
    e == IndexEntry(IndexName(d.table, d.indexes[i].suffix), d.table, IndexBody(d.indexes[i].columns, d.indexes[i].unique))
  }

  lemma EntriesOf(d: Declaration, entries: seq<IndexEntry>)
    requires DistinctSuffixes(d.indexes) && |entries| == |d.indexes|
    requires forall i | 0 <= i < |entries| :: IsEntryOf(d, entries[i], i)
    ensures forall e | e in entries :: e.table == d.table && DeclaresAs(ModelOf(d), e)
  {
    forall e | e in entries
      ensures e.table == d.table && DeclaresAs(ModelOf(d), e)
    {
      var i :| 0 <= i < |entries| && entries[i] == e;
      IndexAt(d, i);
    }
  }

  lemma ListsAt(d: Declaration, e: CheckEntry, i: nat)
    requires i < |d.vocabularies| && d.vocabularies[i] == Vocabulary(e.column, e.values)
    requires e.table == d.table && e.name == CheckName(d.table, e.column) && DistinctColumns(d.vocabularies)
    ensures Lists(d, e)
  {
  }

  lemma VocabulariesDistinct()
    ensures DistinctColumns(AGENT_TASKS.vocabularies) && DistinctColumns(CHECK_SUITE_SNAPSHOTS.vocabularies)
    ensures DistinctColumns(IMPORT_JOBS.vocabularies) && DistinctColumns(REPO_RUNNERS.vocabularies)
  {
  }

  predicate Named(e: CheckEntry) {
    e.name == CheckName(e.table, e.column)
  }

  lemma NameAfterPrefix(table: string, column: string)
    ensures CheckName(table, column) == ("ck_" + (table + "_")) + column
    ensures IndexName(table, column) == ("ix_" + (table + "_")) + column
  {
  }

  lemma Prefixes()
    ensures "ck_" + ("agent_tasks" + "_") == "ck_agent_tasks_"
    ensures "ck_" + ("check_suite_snapshots" + "_") == "ck_check_suite_snapshots_"
    ensures "ck_" + ("import_jobs" + "_") == "ck_import_jobs_"
    ensures "ck_" + ("repo_runners" + "_") == "ck_repo_runners_"
  {
  }

  lemma TaskKindName()
    ensures Named(CHECKS[0])
  {
    Prefixes();
    NameAfterPrefix("agent_tasks", "kind");
  }

  lemma TaskStatusName()
    ensures Named(CHECKS[1])
  {
    Prefixes();
    NameAfterPrefix("agent_tasks", "status");
  }

  lemma SuiteKindName()
    ensures Named(CHECKS[2])
  {
    Prefixes();
    NameAfterPrefix("check_suite_snapshots", "kind");
  }

  lemma SuiteStatusName()
    ensures Named(CHECKS[3])
  {
    Prefixes();
    NameAfterPrefix("check_suite_snapshots", "status");
  }

  lemma ImportPhaseName()
    ensures Named(CHECKS[4])
  {
    Prefixes();
    NameAfterPrefix("import_jobs", "phase");
  }

  lemma CredentialKindName()
    ensures Named(CHECKS[5])
  {
    Prefixes();
    NameAfterPrefix("repo_runners", "credential_kind");
  }

  lemma EgressPolicyName()
    ensures Named(CHECKS[6])
  {
    Prefixes();
    NameAfterPrefix("repo_runners", "egress_policy");
  }

  lemma CheckNames(i: nat)
    requires i < |CHECKS|
    ensures Named(CHECKS[i])
  {
    TaskKindName();
    TaskStatusName();
    SuiteKindName();
    SuiteStatusName();
    ImportPhaseName();
    CredentialKindName();
    EgressPolicyName();
  }

  function DeclarationOf(i: nat): Declaration {
    if i < 2 then AGENT_TASKS else if i < 4 then CHECK_SUITE_SNAPSHOTS else if i == 4 then IMPORT_JOBS else REPO_RUNNERS
  }

  function VocabularyOf(i: nat): nat {
    if i == 0 || i == 3 || i == 4 || i == 6 then 1 else 0
  }

  lemma VocabularyAt(i: nat)
    requires i < |CHECKS|
    ensures var d := DeclarationOf(i);
      && d.table == CHECKS[i].table && VocabularyOf(i) < |d.vocabularies|
      && d.vocabularies[VocabularyOf(i)] == Vocabulary(CHECKS[i].column, CHECKS[i].values)
      && d in DECLARATIONS
  {
  }

  lemma CheckListed(e: CheckEntry)
    requires e in CHECKS
    ensures CheckDeclared(DECLARATIONS, e)
  {
    var i :| 0 <= i < |CHECKS| && CHECKS[i] == e;
    VocabulariesDistinct();
    CheckNames(i);
    VocabularyAt(i);
    ListsAt(DeclarationOf(i), e, VocabularyOf(i));
  }

  lemma ShippedColumnsListed(e: ColumnEntry)
    requires e in SHIPPED.columns
    ensures ColumnDeclared(DECLARATIONS, e)
  {
    RepoColumnsListed();
    TaskColumnsListed();
    assert REPOS in REPO_TABLES && AGENT_TASKS in TASK_TABLES;
    ColumnFrom("repos", REPO_COLUMNS, "agent_tasks", TASK_COLUMNS, e);
  }

  lemma ColumnFrom(t: string, a: seq<string>, u: string, b: seq<string>, e: ColumnEntry)
    requires e in Entries(t, a) + Entries(u, b)
    ensures (e.table == t && e.column in a) || (e.table == u && e.column in b)
  {
  }

  lemma ShippedIndexesListed(e: IndexEntry)
    requires e in SHIPPED.indexes
    ensures IndexDeclared(DECLARATIONS, e)
  {
    RepoIndexesListed();
    assert REPOS in REPO_TABLES && REPOS.table == "repos";
  }

  lemma ShippedIsDescribed()
    ensures Describes(DECLARATIONS, SHIPPED)
  {
    forall t | t in SHIPPED.tables
      ensures Declares(DECLARATIONS, t)
    {
      TablesDeclared(t);
    }
    forall e | e in SHIPPED.columns
      ensures ColumnDeclared(DECLARATIONS, e)
    {
      ShippedColumnsListed(e);
    }
    forall e | e in SHIPPED.indexes
      ensures IndexDeclared(DECLARATIONS, e)
    {
      ShippedIndexesListed(e);
    }
    forall e | e in SHIPPED.checks
      ensures CheckDeclared(DECLARATIONS, e)
    {
      CheckListed(e);
    }
  }

  /** What the application ships meets every condition the migration is proved under. */
  lemma ShippedIsCoherent()
    ensures Coherent(SHIPPED, MODELS)
  {
    ShippedIsSelfConsistent();
    DeclarationsTagged();
    DeclarationsSound();
    ShippedIsDescribed();
    DescribedIsListed(DECLARATIONS, SHIPPED);
    IndexesAgree(DECLARATIONS);
    KeysAgree(SHIPPED, DECLARATIONS);
  }
}
