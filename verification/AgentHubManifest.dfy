/** The manifest the application ships (backend/models/agent_hub_migrate.py, lines 69-145). */
module AgentHubManifest {
  import opened Basics
  import opened CheckText
  import opened Databases
  import opened TableRebuild
  import opened AgentHubSchema

  const TABLES := [
    "repos", "repo_runners", "import_jobs", "repo_issues", "repo_commits", "review_runs", "agent_tasks",
    "check_suite_snapshots", "check_validations", "check_runs",
    "findings", "finding_events", "finding_evidence", "git_identities", "webhook_deliveries"
  ]

  const REPO_COLUMNS := [
    "source", "source_url", "default_branch", "forgejo_repo", "kind", "sync_state", "synced_at",
    "issue_count", "commit_count", "created_at", "updated_at", "auto_review", "curator", "curator_min_interval_seconds"
  ]

  const TASK_COLUMNS := ["dedup_key", "pr_url", "runner_id"]

  function Entries(table: string, columns: seq<string>): (r: seq<ColumnEntry>)
    ensures |r| == |columns|
    ensures forall i | 0 <= i < |r| :: r[i] == ColumnEntry(table, columns[i])
  {
    if columns == [] then [] else [ColumnEntry(table, columns[0])] + Entries(table, columns[1..])
  }

  lemma TablesDistinct()
    ensures AllDistinct(TABLES)
  {
  }

  lemma RepoColumnsDistinct()
    ensures AllDistinct(REPO_COLUMNS)
  {
  }

  const INDEXES := [
    IndexEntry("ix_repos_slug", "repos", IndexBody(["slug"], true)),
    IndexEntry("ix_repos_sync_state", "repos", IndexBody(["sync_state"], false))
  ]

  const TASK_KIND := ["review", "fix", "checks", "import", "backfill"]
  const TASK_STATUS := ["queued", "leased", "running", "done", "failed", "dead"]
  const CHECK_SUITE_KIND := ["user", "ai"]
  const CHECK_SUITE_STATUS := ["proposed", "active", "retired"]
  const IMPORT_PHASE := ["validate", "migrate", "poll", "mirror_issues", "index_commits", "done"]
  const CREDENTIAL_KIND := ["shared", "repo"]
  const EGRESS_POLICY := ["inherit", "internal", "allowlist"]

  const CHECKS := [
    CheckEntry("agent_tasks", "ck_agent_tasks_kind", "kind", TASK_KIND),
    CheckEntry("agent_tasks", "ck_agent_tasks_status", "status", TASK_STATUS),
    CheckEntry("check_suite_snapshots", "ck_check_suite_snapshots_kind", "kind", CHECK_SUITE_KIND),
    CheckEntry("check_suite_snapshots", "ck_check_suite_snapshots_status", "status", CHECK_SUITE_STATUS),
    CheckEntry("import_jobs", "ck_import_jobs_phase", "phase", IMPORT_PHASE),
    CheckEntry("repo_runners", "ck_repo_runners_credential_kind", "credential_kind", CREDENTIAL_KIND),
    CheckEntry("repo_runners", "ck_repo_runners_egress_policy", "egress_policy", EGRESS_POLICY)
  ]

  function ManifestOf(tables: seq<string>, repoColumns: seq<string>, taskColumns: seq<string>, indexes: seq<IndexEntry>, checks: seq<CheckEntry>): Manifest {
    Manifest(tables, Entries("repos", repoColumns) + Entries("agent_tasks", taskColumns), indexes, checks)
  }

  const SHIPPED := ManifestOf(TABLES, REPO_COLUMNS, TASK_COLUMNS, INDEXES, CHECKS)

  lemma EntriesDistinct(t: string, a: seq<string>, u: string, b: seq<string>)
    requires t != u && AllDistinct(a) && AllDistinct(b)
    ensures AllDistinct(Entries(t, a) + Entries(u, b))
  {
  }

  predicate Words(values: seq<string>) {
    forall v | v in values :: Identifier(v)
  }

  lemma WordsAreQuoteFree(values: seq<string>)
    requires Words(values)
    ensures forall v | v in values :: QuoteFree(v)
  {
    forall v | v in values
      ensures QuoteFree(v)
    {
      IdentifierIsQuoteFree(v);
    }
  }

  lemma KindWords()
    ensures Words(TASK_KIND)
  {
  }

  lemma StatusWords()
    ensures Words(TASK_STATUS)
  {
  }

  lemma SuiteWords()
    ensures Words(CHECK_SUITE_KIND) && Words(CHECK_SUITE_STATUS)
  {
  }

  lemma ImportWords()
    ensures Words(IMPORT_PHASE)
  {
  }

  lemma RunnerWords()
    ensures Words(CREDENTIAL_KIND) && Words(EGRESS_POLICY)
  {
  }

  lemma ColumnWords()
    ensures Words(["kind", "status", "phase", "credential_kind", "egress_policy"])
  {
  }

  /** Every vocabulary is made of plain words, and so is every column it constrains. */
  lemma WordsOnly(i: nat)
    requires i < |CHECKS|
    ensures CHECKS[i].name != "" && Identifier(CHECKS[i].column) && Words(CHECKS[i].values)
  {
    KindWords();
    StatusWords();
    SuiteWords();
    ImportWords();
    RunnerWords();
    ColumnWords();
    var columns := ["kind", "status", "phase", "credential_kind", "egress_policy"];
    assert columns[0] in columns && columns[1] in columns && columns[2] in columns && columns[3] in columns && columns[4] in columns;
  }

  /** For plain words it is enough that no value is the other column. */
  lemma ApartByWords(e: CheckEntry, f: CheckEntry)
    requires Words(e.values) && e.name != f.name
    requires f.column != e.column && f.column != "IN" && f.column !in e.values
    ensures Apart(e, f)
  {
    forall v | v in e.values
      ensures f.column !in WordsOf(v)
    {
      IdentifierIsWord(v);
    }
  }

  lemma TaskChecks()
    ensures Apart(CHECKS[0], CHECKS[1]) && Apart(CHECKS[1], CHECKS[0])
  {
    KindWords();
    StatusWords();
    ApartByWords(CHECKS[0], CHECKS[1]);
    ApartByWords(CHECKS[1], CHECKS[0]);
  }

  lemma SuiteChecks()
    ensures Apart(CHECKS[2], CHECKS[3]) && Apart(CHECKS[3], CHECKS[2])
  {
    SuiteWords();
    ApartByWords(CHECKS[2], CHECKS[3]);
    ApartByWords(CHECKS[3], CHECKS[2]);
  }

  lemma RunnerChecks()
    ensures Apart(CHECKS[5], CHECKS[6]) && Apart(CHECKS[6], CHECKS[5])
  {
    RunnerWords();
    ApartByWords(CHECKS[5], CHECKS[6]);
    ApartByWords(CHECKS[6], CHECKS[5]);
  }

  lemma TablesDiffer(i: nat, j: nat)
    requires i < |CHECKS| && j < |CHECKS|
    ensures CHECKS[i].table == CHECKS[j].table ==> i == j || {i, j} == {0, 1} || {i, j} == {2, 3} || {i, j} == {5, 6}
  {
  }

  lemma PairsApart(i: nat, j: nat)
    requires {i, j} == {0, 1} || {i, j} == {2, 3} || {i, j} == {5, 6}
    ensures Apart(CHECKS[i], CHECKS[j])
  {
    TaskChecks();
    SuiteChecks();
    RunnerChecks();
    assert i in {i, j} && j in {i, j};
  }

  lemma EntriesApart(e: CheckEntry, f: CheckEntry)
    requires e in CHECKS && f in CHECKS
    ensures Apart(e, f)
  {
    var i :| 0 <= i < |CHECKS| && CHECKS[i] == e;
    var j :| 0 <= j < |CHECKS| && CHECKS[j] == f;
    TablesDiffer(i, j);
    if e.table == f.table && i != j {
      PairsApart(i, j);
    }
  }

  /** A name that does not end in `w` is no temporary name. */
  lemma NoTemporaryName(man: Manifest, table: string)
    requires table != "" && table[|table| - 1] != 'w'
    ensures !IsTemp(man, table)
  {
    forall e | e in man.checks
      ensures table != TempName(e.table)
    {
      var temp := TempName(e.table);
      assert temp[|temp| - 1] == NEW_TABLE_SUFFIX[|NEW_TABLE_SUFFIX| - 1] == 'w';
    }
  }

  predicate NotTemporary(table: string) {
    table != "" && table[|table| - 1] != 'w'
  }

  lemma TableNames()
    ensures forall t | t in TABLES :: NotTemporary(t)
  {
  }

  lemma CheckedTables(i: nat)
    requires i < |CHECKS|
    ensures NotTemporary(CHECKS[i].table) && CHECKS[i].values != []
  {
  }

  predicate EntryConsistent(e: CheckEntry) {
    e.name != "" && e.values != [] && Identifier(e.column) && Words(e.values) && NotTemporary(e.table)
  }

  lemma ConsistentParts(tables: seq<string>, repoColumns: seq<string>, taskColumns: seq<string>, indexes: seq<IndexEntry>, checks: seq<CheckEntry>)
    requires AllDistinct(tables) && AllDistinct(repoColumns) && AllDistinct(taskColumns)
    requires forall t | t in tables :: NotTemporary(t)
    requires forall e | e in checks :: EntryConsistent(e)
    requires forall e, f | e in checks && f in checks :: Apart(e, f)
    ensures SelfConsistent(ManifestOf(tables, repoColumns, taskColumns, indexes, checks))
  {
    var man := ManifestOf(tables, repoColumns, taskColumns, indexes, checks);
    EntriesDistinct("repos", repoColumns, "agent_tasks", taskColumns);
    forall t | NotTemporary(t)
      ensures !IsTemp(man, t)
    {
      NoTemporaryName(man, t);
    }
    forall e | e in checks
      ensures e.name != "" && e.values != [] && Identifier(e.column) && !IsTemp(man, e.table) && forall v | v in e.values :: QuoteFree(v)
    {
      assert EntryConsistent(e);
      WordsAreQuoteFree(e.values);
    }
  }

  lemma ChecksConsistent(e: CheckEntry)
    requires e in CHECKS
    ensures EntryConsistent(e)
  {
    var i :| 0 <= i < |CHECKS| && CHECKS[i] == e;
    WordsOnly(i);
    CheckedTables(i);
  }

  lemma TaskColumnsDistinct()
    ensures AllDistinct(TASK_COLUMNS)
  {
  }

  /** The shipped manifest keeps the rules the migration relies on. */
  lemma ShippedIsSelfConsistent()
    ensures SelfConsistent(SHIPPED)
  {
    TablesDistinct();
    RepoColumnsDistinct();
    TaskColumnsDistinct();
    TableNames();
    forall e | e in CHECKS
      ensures EntryConsistent(e)
    {
      ChecksConsistent(e);
    }
    forall e, f | e in CHECKS && f in CHECKS
      ensures Apart(e, f)
    {
      EntriesApart(e, f);
    }
    ConsistentParts(TABLES, REPO_COLUMNS, TASK_COLUMNS, INDEXES, CHECKS);
  }
}
