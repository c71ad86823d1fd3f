/** The fifteen Agent Hub tables as they are declared (backend/models/agent_hub.py, lines 60-1085). */
module AgentHubModels {
  import opened CheckText
  import opened Databases
  import opened AgentHubManifest

  /** `column IN (values)`, under the name `ck_<table>_<column>`. */
  datatype Vocabulary = Vocabulary(column: string, values: seq<string>)

  /** Every foreign key of these tables is to an `id`. */
  datatype Reference = Reference(column: string, table: string)

  /** `ix_<table>_<suffix>` */
  datatype IndexSpec = IndexSpec(suffix: string, columns: seq<string>, unique: bool)

  /** One declaring class; `id` is always the first column and the primary key. */
  datatype Declaration = Declaration(
    table: string,
    columns: seq<string>,
    nullable: set<string>,
    vocabularies: seq<Vocabulary>,
    uniques: seq<seq<string>>,
    references: seq<Reference>,
    indexes: seq<IndexSpec>)

  function CheckName(table: string, column: string): string {
    "ck_" + (table + ("_" + column))
  }

  function IndexName(table: string, suffix: string): string {
    "ix_" + (table + ("_" + suffix))
  }

  function Checks(table: string, vocabularies: seq<Vocabulary>): (r: seq<Check>)
    ensures |r| == |vocabularies|
    ensures forall i | 0 <= i < |r| ::
              r[i] == Generated(CheckName(table, vocabularies[i].column), vocabularies[i].column, vocabularies[i].values)
  {
    if vocabularies == [] then []
    else
      var v := vocabularies[0];
      [Generated(CheckName(table, v.column), v.column, v.values)] + Checks(table, vocabularies[1..])
  }

  function Keys(references: seq<Reference>): (r: seq<ForeignKey>)
    ensures |r| == |references|
    ensures forall i | 0 <= i < |r| :: r[i] == ForeignKey(references[i].column, references[i].table, "id")
  {
    if references == [] then []
    else [ForeignKey(references[0].column, references[0].table, "id")] + Keys(references[1..])
  }

  function Indexes(table: string, specs: seq<IndexSpec>): (r: map<string, IndexBody>)
    ensures forall i | 0 <= i < |specs| :: IndexName(table, specs[i].suffix) in r
    ensures forall n | n in r :: exists i | 0 <= i < |specs| ::
              n == IndexName(table, specs[i].suffix) && r[n] == IndexBody(specs[i].columns, specs[i].unique)
  {
    if specs == [] then map[]
    else Indexes(table, specs[1..])[IndexName(table, specs[0].suffix) := IndexBody(specs[0].columns, specs[0].unique)]
  }

  function ColumnsOf(d: Declaration): seq<string> {
    ["id"] + d.columns
  }

  function ModelOf(d: Declaration): Model {
    Model(
      false,
      Shape(
        ColumnsOf(d),
        (set c | c in ColumnsOf(d) && c !in d.nullable),
        Checks(d.table, d.vocabularies),
        [["id"]] + d.uniques,
        Keys(d.references)),
      Indexes(d.table, d.indexes))
  }

  /** What a declaration asks of a row: values in the columns that must have one, and in its
      vocabularies. */
  predicate RowMeets(d: Declaration, r: Row) {
    && (forall c | c in ColumnsOf(d) :: c in d.nullable || !Cell(r, c).Null?)
    && (forall i | 0 <= i < |d.vocabularies| :: VocabularyMeets(d.vocabularies[i], r))
  }

  predicate VocabularyMeets(v: Vocabulary, r: Row) {
    Cell(r, v.column).Null? || (Cell(r, v.column).Text? && Cell(r, v.column).s in v.values)
  }

  /** The model of a declaration admits exactly the rows that meet it and of which no two agree on
      `id` or on what is declared unique. */
  lemma ModelAdmits(d: Declaration, rows: seq<Row>)
    ensures Fits(ModelOf(d).shape, rows) <==>
              && (forall r | r in rows :: RowMeets(d, r))
              && Distinct(rows, ["id"]) && (forall u | u in d.uniques :: Distinct(rows, u))
  {
    var shape := ModelOf(d).shape;
    assert shape.uniques[0] == ["id"] && shape.uniques[1..] == d.uniques;
    assert forall u | u in shape.uniques :: u == ["id"] || u in shape.uniques[1..];
    forall r | r in rows
      ensures RowFits(shape, r) <==> RowMeets(d, r)
    {
      ShapeAdmits(d, r);
    }
  }

  lemma ShapeAdmits(d: Declaration, r: Row)
    ensures RowFits(ModelOf(d).shape, r) <==> RowMeets(d, r)
  {
    var checks := Checks(d.table, d.vocabularies);
    forall i | 0 <= i < |d.vocabularies|
      ensures checks[i] in checks && (Passes(checks[i], r) <==> VocabularyMeets(d.vocabularies[i], r))
    {
    }
  }

  function ModelsOf(declarations: seq<Declaration>): map<string, Model> {
    if declarations == [] then map[]
    else ModelsOf(declarations[1..])[declarations[0].table := ModelOf(declarations[0])]
  }

  // -------------------------------------------------------------------------- declarations

  const OF_REPO := [Reference("repo_id", "repos")]

  const REPOS := Declaration(
    "repos",
    ["slug", "source", "source_url", "default_branch", "forgejo_repo", "kind", "sync_state", "synced_at",
     "issue_count", "commit_count", "auto_review", "curator", "curator_min_interval_seconds", "created_at", "updated_at"],
    {"source_url", "forgejo_repo", "synced_at", "auto_review", "curator", "curator_min_interval_seconds"},
    [Vocabulary("kind", ["upstream", "workspace"]), Vocabulary("source", ["import", "local"]),
     Vocabulary("sync_state", ["pending", "cloning", "issues", "indexing", "ready", "error"])],
    [],
    [],
    [IndexSpec("slug", ["slug"], true), IndexSpec("sync_state", ["sync_state"], false)])

  const REPO_RUNNERS := Declaration(
    "repo_runners",
    ["repo_id", "name", "enabled", "max_concurrency", "workspace_subdir", "egress_policy", "egress_allowlist",
     "credential_kind", "credential_username", "credential_ciphertext", "credential_expires_at",
     "credential_rotated_at", "last_task_at", "created_at", "updated_at"],
    {"egress_allowlist", "credential_username", "credential_ciphertext", "credential_expires_at",
     "credential_rotated_at", "last_task_at"},
    [Vocabulary("credential_kind", CREDENTIAL_KIND), Vocabulary("egress_policy", EGRESS_POLICY)],
    [],
    OF_REPO,
    [IndexSpec("repo_id", ["repo_id"], true)])

  const IMPORT_JOBS := Declaration(
    "import_jobs",
    ["repo_id", "mode", "status", "phase", "cursor", "progress", "total", "done", "partial", "error",
     "started_at", "finished_at", "created_at"],
    {"cursor", "error", "started_at", "finished_at"},
    [Vocabulary("mode", ["code", "code+issues", "issues"]), Vocabulary("phase", IMPORT_PHASE)],
    [],
    OF_REPO,
    [IndexSpec("repo_id", ["repo_id"], false), IndexSpec("status", ["status"], false)])

  const REPO_ISSUES := Declaration(
    "repo_issues",
    ["repo_id", "number", "is_pull_request", "title", "body", "state", "author", "labels", "milestone",
     "created_at", "updated_at", "closed_at", "url", "source_id", "imported_at"],
    {"body", "author", "milestone", "created_at", "updated_at", "closed_at", "url", "source_id"},
    [Vocabulary("state", ["open", "closed"])],
    [["repo_id", "source_id"]],
    OF_REPO,
    [IndexSpec("repo_state", ["repo_id", "state"], false), IndexSpec("repo_id", ["repo_id"], false),
     IndexSpec("is_pull_request", ["is_pull_request"], false)])

  const REPO_COMMITS := Declaration(
    "repo_commits",
    ["repo_id", "sha", "author", "author_email", "message", "committed_at", "parent_sha", "imported_at"],
    {"author", "author_email", "message", "committed_at", "parent_sha"},
    [],
    [["repo_id", "sha"]],
    OF_REPO,
    [IndexSpec("repo_committed", ["repo_id", "committed_at"], false), IndexSpec("repo_id", ["repo_id"], false)])

  const REVIEW_RUNS := Declaration(
    "review_runs",
    ["repo_id", "agent_task_id", "commit_sha", "policy_hash", "findings_new", "findings_matched", "gates_total",
     "gates_passed", "gates_failed", "status", "log_ref", "started_at", "finished_at"],
    {"agent_task_id", "policy_hash", "log_ref", "finished_at"},
    [Vocabulary("status", ["running", "ok", "error"])],
    [],
    [Reference("repo_id", "repos"), Reference("agent_task_id", "agent_tasks")],
    [IndexSpec("repo_started", ["repo_id", "started_at"], false), IndexSpec("repo_id", ["repo_id"], false),
     IndexSpec("agent_task_id", ["agent_task_id"], false), IndexSpec("status", ["status"], false)])

  const AGENT_TASKS := Declaration(
    "agent_tasks",
    ["repo_id", "runner_id", "kind", "status", "payload", "leased_by", "lease_until", "scheduled_at", "attempts",
     "max_attempts", "dedup_key", "priority", "result_ref", "pr_url", "error", "created_at", "started_at", "finished_at"],
    {"runner_id", "lease_until", "scheduled_at", "dedup_key", "result_ref", "pr_url", "error", "started_at", "finished_at"},
    [Vocabulary("status", TASK_STATUS), Vocabulary("kind", TASK_KIND)],
    [],
    OF_REPO,
    [IndexSpec("status_priority_created", ["status", "priority", "created_at"], false),
     IndexSpec("lease_until", ["lease_until"], false), IndexSpec("repo_id", ["repo_id"], false)])

  const CHECK_SUITE_SNAPSHOTS := Declaration(
    "check_suite_snapshots",
    ["repo_id", "kind", "source", "suite_hash", "checks", "base_sha", "author", "model", "task_id", "status",
     "created_at", "updated_at"],
    {"task_id"},
    [Vocabulary("kind", CHECK_SUITE_KIND), Vocabulary("status", CHECK_SUITE_STATUS), Vocabulary("author", ["human", "ai"])],
    [["repo_id", "kind", "suite_hash"]],
    OF_REPO,
    [IndexSpec("repo_kind", ["repo_id", "kind"], false), IndexSpec("status", ["status"], false)])

  const CHECK_VALIDATIONS := Declaration(
    "check_validations",
    ["repo_id", "check_id", "base_sha", "detection_rate", "faults_seeded", "validated", "status", "reason", "created_at"],
    {},
    [],
    [],
    OF_REPO,
    [IndexSpec("repo_check", ["repo_id", "check_id"], false)])

  const CHECK_RUNS := Declaration(
    "check_runs",
    ["repo_id", "check_id", "suite_hash", "revision", "state", "exit_code", "duration_ms", "weakened", "created_at"],
    {"exit_code"},
    [Vocabulary("state", ["passed", "failed", "unverified", "error"])],
    [],
    OF_REPO,
    [IndexSpec("repo_check", ["repo_id", "check_id"], false), IndexSpec("suite_hash", ["suite_hash"], false)])

  const FINDINGS := Declaration(
    "findings",
    ["repo_id", "fingerprint", "rule_id", "level", "severity", "status", "file_path", "symbol", "line_hint", "title",
     "detail", "first_seen_run_id", "last_seen_run_id", "seen_count", "owner", "due", "decided_by", "decided_at",
     "pr_url", "created_at", "updated_at"],
    {"line_hint", "detail", "first_seen_run_id", "last_seen_run_id", "owner", "due", "decided_by", "decided_at", "pr_url"},
    [Vocabulary("level", ["blocking", "debt"]), Vocabulary("severity", ["critical", "high", "medium", "low"]),
     Vocabulary("status", ["open", "acknowledged", "wontfix", "fixed", "stale"])],
    [["repo_id", "fingerprint"]],
    [Reference("repo_id", "repos"), Reference("first_seen_run_id", "review_runs"), Reference("last_seen_run_id", "review_runs")],
    [IndexSpec("repo_status", ["repo_id", "status"], false), IndexSpec("repo_rule", ["repo_id", "rule_id"], false),
     IndexSpec("status_due", ["status", "due"], false), IndexSpec("repo_id", ["repo_id"], false),
     IndexSpec("rule_id", ["rule_id"], false), IndexSpec("status", ["status"], false)])

  const FINDING_EVENTS := Declaration(
    "finding_events",
    ["finding_id", "at", "actor", "from_status", "to_status", "reason", "run_id"],
    {"actor", "from_status", "reason", "run_id"},
    [],
    [],
    [Reference("finding_id", "findings"), Reference("run_id", "review_runs")],
    [IndexSpec("finding_at", ["finding_id", "at"], false), IndexSpec("finding_id", ["finding_id"], false)])

  const FINDING_EVIDENCE := Declaration(
    "finding_evidence",
    ["finding_id", "repo_issue_id", "relation", "origin", "status", "confidence", "rationale", "created_at"],
    {"confidence", "rationale"},
    [Vocabulary("relation", ["mentions", "duplicate_of", "fixed_by"]), Vocabulary("status", ["pending", "confirmed", "rejected"])],
    [["finding_id", "repo_issue_id", "relation"]],
    [Reference("finding_id", "findings"), Reference("repo_issue_id", "repo_issues")],
    [IndexSpec("finding", ["finding_id"], false), IndexSpec("repo_issue_id", ["repo_issue_id"], false)])

  const GIT_IDENTITIES := Declaration(
    "git_identities",
    ["user_id", "forgejo_username", "external_id", "token_ciphertext", "token_expires_at", "rotated_at", "revoked_at",
     "created_at", "updated_at"],
    {"token_ciphertext", "token_expires_at", "rotated_at", "revoked_at"},
    [],
    [["user_id"], ["forgejo_username"]],
    [Reference("user_id", "users")],
    [])

  const WEBHOOK_DELIVERIES := Declaration(
    "webhook_deliveries",
    ["delivery_id", "repo_id", "event", "received_at"],
    {"repo_id", "event"},
    [],
    [],
    [],
    [IndexSpec("delivery_id", ["delivery_id"], true)])

  const REPO_TABLES := [REPOS, REPO_RUNNERS, IMPORT_JOBS, REPO_ISSUES, REPO_COMMITS]
  const TASK_TABLES := [REVIEW_RUNS, AGENT_TASKS, CHECK_SUITE_SNAPSHOTS, CHECK_VALIDATIONS, CHECK_RUNS]
  const FINDING_TABLES := [FINDINGS, FINDING_EVENTS, FINDING_EVIDENCE, GIT_IDENTITIES, WEBHOOK_DELIVERIES]

  /** In the order of `AGENT_HUB_TABLES`. */
  const DECLARATIONS := REPO_TABLES + TASK_TABLES + FINDING_TABLES

  const MODELS := ModelsOf(DECLARATIONS)
}
