/** The `model_routes` table the application declares (backend/models/model_route.py, lines 162-226),
    and a database of an earlier release that the migration cannot get past. */
module ModelRouteShipped {
  import opened CheckText
  import opened Databases
  import opened TableRebuild
  import opened ModelRouteMigrate
  import opened ModelRouteSchema

  const KINDS := ["chat", "completion", "embedding", "rerank", "ocr", "asr", "tts"]

  const COLUMNS := [
    "id", "name", "provider", "kind", "base_url", "path", "model", "api_key", "aliases", "enabled", "description",
    "context_window", "max_tokens", "modalities", "reasoning", "health", "created_at", "updated_at"
  ]

  const REQUIRED := {
    "id", "name", "provider", "kind", "base_url", "path", "model", "api_key", "aliases", "enabled", "description",
    "created_at", "updated_at"
  }

  function KindCheck(): Check {
    Generated("ck_model_routes_kind", "kind", KINDS)
  }

  function Declared(columns: seq<string>, required: set<string>, checks: seq<Check>): Model {
    Model(false, Shape(columns, required, checks, [["id"]], []), map["ix_model_routes_name" := IndexBody(["name"], true)])
  }

  const SHIPPED := Declared(COLUMNS, REQUIRED, [CurrentCheck(), KindCheck()])

  lemma {:induction false} NoUInList(values: seq<string>)
    requires forall v | v in values :: NoU(v)
    ensures NoU(List(values))
    decreases |values|
  {
    assert NoU("'") && NoU("', ") && NoU("')") && NoU(")");
    if |values| > 1 {
      assert values[0] in values && forall v | v in values[1..] :: v in values;
      NoUInList(values[1..]);
      assert List(values) == "'" + (values[0] + ("', " + List(values[1..])));
    } else if |values| == 1 {
      assert values[0] in values;
    }
  }

  lemma KindsHaveNoU()
    ensures forall v | v in KINDS :: NoU(v)
  {
  }

  lemma KindCheckIsNotStale()
    ensures !StaleCheck(KindCheck())
  {
    KindsHaveNoU();
    NoUInList(KINDS);
    assert NoU("kind") && NoU(" IN (");
    NoUMeansCurrent(KindCheck());
  }

  lemma NamesDeclared()
    ensures "name" in COLUMNS && "provider" in COLUMNS && "path" in COLUMNS
  {
    assert COLUMNS[1] == "name" && COLUMNS[2] == "provider" && COLUMNS[5] == "path";
  }

  lemma MetadataDeclared()
    ensures forall c | c in METADATA :: c in COLUMNS
  {
    assert COLUMNS[11] == METADATA[0] && COLUMNS[12] == METADATA[1] && COLUMNS[13] == METADATA[2] && COLUMNS[14] == METADATA[3];
  }

  lemma RetiredUndeclared(i: nat)
    requires i < |COLUMNS|
    ensures COLUMNS[i] != RETIRED_COLUMN
  {
    assert |RETIRED_COLUMN| == 11 && RETIRED_COLUMN[0] == 'a';
  }

  lemma RetiredIsUndeclared()
    ensures RETIRED_COLUMN !in COLUMNS
  {
    forall i | 0 <= i < |COLUMNS|
      ensures COLUMNS[i] != RETIRED_COLUMN
    {
      RetiredUndeclared(i);
    }
  }

  lemma DeclaredIsRouteModel(columns: seq<string>, required: set<string>, kind: Check)
    requires "name" in columns && "provider" in columns && "path" in columns && RETIRED_COLUMN !in columns
    requires forall c | c in METADATA :: c in columns
    requires !StaleCheck(kind)
    ensures RouteModel(Declared(columns, required, [CurrentCheck(), kind]))
  {
    CurrentCheckIsCurrent();
    assert [CurrentCheck(), kind][0] == CurrentCheck();
  }

  /** The shipped declaration is one the migration is right about. */
  lemma ShippedIsRouteModel()
    ensures RouteModel(SHIPPED)
  {
    NamesDeclared();
    MetadataDeclared();
    RetiredIsUndeclared();
    KindCheckIsNotStale();
    DeclaredIsRouteModel(COLUMNS, REQUIRED, KindCheck());
  }

  // ---------------------------------------------------------------------- an earlier release

  function EarlierCheck(): Check {
    Generated(PROVIDER_CHECK, "provider", ["openai", "anthropic", "mineru"])
  }

  lemma LowerJoins(a: string, t: string)
    ensures Lower(a + t) == Lower(a) + Lower(t)
  {
  }

  lemma ContainsAtLater(low: string, rest: string, part: string, i: nat)
    requires ContainsAt(rest, part, i)
    ensures ContainsAt(low + rest, part, |low| + i)
  {
    assert (low + rest)[|low| + i..|low| + i + |part|] == rest[i..i + |part|];
  }

  lemma ContainsLater(a: string, t: string, part: string)
    requires Contains(Lower(t), part)
    ensures Contains(Lower(a + t), part)
  {
    var i :| 0 <= i <= |Lower(t)| && ContainsAt(Lower(t), part, i);
    LowerJoins(a, t);
    ContainsAtLater(Lower(a), Lower(t), part, i);
  }

  lemma ContainsFirst(part: string, t: string)
    ensures Contains(Lower(part + t), Lower(part))
  {
    assert Lower(part + t)[0..0 + |part|] == Lower(part);
    assert ContainsAt(Lower(part + t), Lower(part), 0);
  }

  lemma ListContains(first: string, rest: seq<string>, part: string)
    requires rest != [] && Contains(Lower(List(rest)), part)
    ensures Contains(Lower(List([first] + rest)), part)
  {
    var all := [first] + rest;
    assert all[1..] == rest;
    ContainsLater("', ", List(rest), part);
    ContainsLater(first, "', " + List(rest), part);
    ContainsLater("'", first + ("', " + List(rest)), part);
  }

  lemma LastListed(value: string)
    requires Lower(value) == value
    ensures Contains(Lower(List([value])), value)
  {
    ContainsFirst(value, "')");
    ContainsLater("'", value + "')", value);
  }

  lemma CheckContains(column: string, values: seq<string>, part: string)
    requires Contains(Lower(List(values)), part)
    ensures Contains(Lower(InCheck(column, values)), part)
  {
    ContainsLater(" IN (", List(values), part);
    ContainsLater(column, " IN (" + List(values), part);
  }

  lemma EarlierCheckIsStale()
    ensures StaleCheck(EarlierCheck())
  {
    LastListed(RETIRED_PROVIDER);
    ListContains("anthropic", ["mineru"], RETIRED_PROVIDER);
    ListContains("openai", ["anthropic"] + ["mineru"], RETIRED_PROVIDER);
    assert ["openai"] + (["anthropic"] + ["mineru"]) == ["openai", "anthropic", "mineru"];
    CheckContains("provider", ["openai", "anthropic", "mineru"], RETIRED_PROVIDER);
  }

  /** The declared columns without the metadata, and with the retired one. */
  const EARLIER_COLUMNS := [
    "id", "name", "provider", "kind", "base_url", "path", "model", "api_key", "api_key_env", "aliases", "enabled",
    "description", "health", "created_at", "updated_at"
  ]

  /** A route of the retired provider, at its default path. */
  function EarlierRow(columns: seq<string>): Row {
    map c | c in columns ::
      if c == "provider" then Text(RETIRED_PROVIDER)
      else if c == "path" then Text(RETIRED_PROVIDER_PATH)
      else if c == "kind" then Text("ocr")
      else Int(1)
  }

  function EarlierDb(columns: seq<string>, required: set<string>, checks: seq<Check>): Database {
    Database(map[TABLE := Table(Shape(columns, required, checks, [["id"]], []), [EarlierRow(columns)])],
             map["ix_model_routes_name" := Index(TABLE, IndexBody(["name"], true))])
  }

  lemma EarlierRowIsRetired(columns: seq<string>)
    requires "provider" in columns && "path" in columns
    ensures Retired(EarlierRow(columns))
  {
    assert Lower(RETIRED_PROVIDER) == RETIRED_PROVIDER;
  }

  /** Rewriting a full row leaves it full, with a current provider and everything else in place. */
  lemma RewrittenStaysFull(columns: seq<string>, r: Row)
    requires "provider" in columns && "path" in columns
    requires r == ClearPath(EarlierRow(columns)) || r == Rewritten(EarlierRow(columns))
    ensures forall c | c in columns :: c in r && !r[c].Null?
    ensures forall c | c in r :: c in columns
  {
    EarlierRowIsRetired(columns);
  }

  lemma EarlierCells(columns: seq<string>)
    requires "provider" in columns && "path" in columns && "kind" in columns
    ensures Cell(EarlierRow(columns), "kind") == Text("ocr") && Cell(EarlierRow(columns), "provider") == Text(RETIRED_PROVIDER)
  {
  }

  lemma ClearedCellsApart(row: Row)
    ensures Cell(ClearPath(row), "kind") == Cell(row, "kind") && Cell(ClearPath(row), "provider") == Cell(row, "provider")
  {
  }

  lemma RewrittenCellsApart(row: Row)
    ensures Cell(Rewritten(row), "kind") == Cell(row, "kind")
    ensures Retired(row) ==> Cell(Rewritten(row), "provider") == Text("openai")
  {
    RewrittenCells(row, "kind");
    RewrittenCells(row, "provider");
  }

  lemma RewrittenStaysApart(columns: seq<string>, r: Row)
    requires "provider" in columns && "path" in columns && "kind" in columns
    requires r == ClearPath(EarlierRow(columns)) || r == Rewritten(EarlierRow(columns))
    ensures Cell(r, "kind") == Text("ocr")
    ensures Cell(r, "provider") == Text(RETIRED_PROVIDER) || Cell(r, "provider") == Text("openai")
    ensures r == Rewritten(EarlierRow(columns)) ==> Cell(r, "provider") == Text("openai")
  {
    EarlierRowIsRetired(columns);
    EarlierCells(columns);
    ClearedCellsApart(EarlierRow(columns));
    RewrittenCellsApart(EarlierRow(columns));
  }

  /** What the table enforces of such a row. */
  predicate TakesRetired(columns: seq<string>, required: set<string>, checks: seq<Check>) {
    && "name" in columns && "provider" in columns && "path" in columns && "kind" in columns
    && (forall c | c in required :: c in columns)
    && (forall k | k in checks :: (k.column == "kind" && "ocr" in k.values)
          || (k.column == "provider" && "openai" in k.values && RETIRED_PROVIDER in k.values))
  }

  lemma EarlierFits(columns: seq<string>, required: set<string>, checks: seq<Check>, r: Row)
    requires TakesRetired(columns, required, checks)
    requires r == ClearPath(EarlierRow(columns)) || r == Rewritten(EarlierRow(columns))
    ensures RowFits(Shape(columns, required, checks, [["id"]], []), r)
  {
    RewrittenStaysFull(columns, r);
    RewrittenStaysApart(columns, r);
  }

  lemma OneRowMapped(r: Row, f: Row -> Row)
    ensures Mapped([r], f) == [f(r)]
  {
  }

  lemma OneRowRewrites(db: Database, shape: Shape, r: Row)
    requires TABLE in db.tables && db.tables[TABLE] == Table(shape, [r])
    requires "name" in shape.columns && "provider" in shape.columns && "path" in shape.columns
    requires RowFits(shape, ClearPath(r)) && RowFits(shape, Rewritten(r))
    ensures CanRewrite(db) && Rows(RewrittenDb(db)) == [Rewritten(r)]
  {
    OneRowMapped(r, ClearPath);
    OneRowMapped(r, Rewritten);
  }

  lemma EarlierRewrites(columns: seq<string>, required: set<string>, checks: seq<Check>, db: Database)
    requires TakesRetired(columns, required, checks) && db == EarlierDb(columns, required, checks)
    ensures CanRewrite(db) && Rows(RewrittenDb(db)) == [Rewritten(EarlierRow(columns))]
  {
    var r := EarlierRow(columns);
    EarlierFits(columns, required, checks, ClearPath(r));
    EarlierFits(columns, required, checks, Rewritten(r));
    OneRowRewrites(db, Shape(columns, required, checks, [["id"]], []), r);
  }

  /** Today's model takes the rewritten row, once it has every column. */
  lemma RewrittenFitsToday(columns: seq<string>, today: seq<string>, required: set<string>, checks: seq<Check>)
    requires "provider" in columns && "path" in columns && "kind" in columns
    requires "provider" in today && "kind" in today
    requires forall c | c in required :: c in columns && c in today
    requires forall k | k in checks :: (k.column == "kind" && "ocr" in k.values) || (k.column == "provider" && "openai" in k.values)
    ensures RowFits(Shape(today, required, checks, [["id"]], []), Projected(Rewritten(EarlierRow(columns)), today))
  {
    RewrittenStaysFull(columns, Rewritten(EarlierRow(columns)));
    RewrittenStaysApart(columns, Rewritten(EarlierRow(columns)));
  }

  lemma RequiredDeclared()
    ensures forall c | c in REQUIRED :: c in EARLIER_COLUMNS && c in COLUMNS
  {
  }

  lemma EarlierNamesDeclared()
    ensures "name" in EARLIER_COLUMNS && "provider" in EARLIER_COLUMNS && "path" in EARLIER_COLUMNS && "kind" in EARLIER_COLUMNS
    ensures RETIRED_COLUMN in EARLIER_COLUMNS
  {
    assert EARLIER_COLUMNS[1] == "name" && EARLIER_COLUMNS[2] == "provider" && EARLIER_COLUMNS[3] == "kind";
    assert EARLIER_COLUMNS[5] == "path" && EARLIER_COLUMNS[8] == RETIRED_COLUMN;
  }

  lemma MetadataIsNew(i: nat)
    requires i < |EARLIER_COLUMNS|
    ensures EARLIER_COLUMNS[i] != METADATA[0]
  {
  }

  lemma OnlyMetadataIsNew()
    ensures forall c | c in COLUMNS :: c in EARLIER_COLUMNS || c in METADATA
  {
  }

  lemma TakesBoth(columns: seq<string>, required: set<string>, check: Check, kind: Check)
    requires "name" in columns && "provider" in columns && "path" in columns && "kind" in columns
    requires forall c | c in required :: c in columns
    requires check.column == "provider" && "openai" in check.values && RETIRED_PROVIDER in check.values
    requires kind.column == "kind" && "ocr" in kind.values
    ensures TakesRetired(columns, required, [check, kind])
  {
  }

  lemma EarlierValues()
    ensures "openai" in EarlierCheck().values && RETIRED_PROVIDER in EarlierCheck().values
  {
    assert EarlierCheck().values[0] == "openai" && EarlierCheck().values[2] == RETIRED_PROVIDER;
  }

  lemma VocabulariesTakeRetired(check: Check)
    requires check.column == "provider" && check.values == EarlierCheck().values
    ensures TakesRetired(EARLIER_COLUMNS, REQUIRED, [check, KindCheck()])
  {
    EarlierNamesDeclared();
    RequiredDeclared();
    OcrIsKnown();
    EarlierValues();
    TakesBoth(EARLIER_COLUMNS, REQUIRED, check, KindCheck());
  }

  lemma OcrIsKnown()
    ensures "ocr" in KINDS && "openai" in PROVIDERS
  {
    assert KINDS[4] == "ocr" && PROVIDERS[0] == "openai";
  }

  lemma EarlierIsWellFormed(columns: seq<string>, required: set<string>, checks: seq<Check>, db: Database)
    requires "provider" in columns && "path" in columns && db == EarlierDb(columns, required, checks)
    ensures db.tables.Keys == {TABLE} && db.tables[TABLE].shape.checks == checks && db.tables[TABLE].shape.foreignKeys == []
    ensures WellFormed(db) && Integrity(db) && SomeRetired(Rows(db))
    ensures Integrity(RewrittenDb(db)) && TempUnnamed(RewrittenDb(db), TABLE)
  {
    EarlierRowIsRetired(columns);
    assert EarlierRow(columns) in Rows(db);
  }

  lemma OneRowReady(db: Database, m: Model, r: Row)
    requires TABLE in db.tables && db.tables.Keys == {TABLE} && Rows(db) == [r]
    requires RowFits(m.shape, Projected(r, m.shape.columns)) && Integrity(db) && TempUnnamed(db, TABLE)
    ensures RebuildReady(db, m)
  {
    assert Project([r], m.shape.columns) == [Projected(r, m.shape.columns)];
  }

  /** A model that takes the rewritten row, once it has every column. */
  predicate TakesRewritten(m: Model, required: set<string>) {
    && m.shape == Shape(m.shape.columns, required, m.shape.checks, [["id"]], [])
    && "provider" in m.shape.columns && "kind" in m.shape.columns && (forall c | c in required :: c in m.shape.columns)
    && (forall k | k in m.shape.checks :: (k.column == "kind" && "ocr" in k.values) || (k.column == "provider" && "openai" in k.values))
  }

  lemma RebuildsFrom(columns: seq<string>, required: set<string>, checks: seq<Check>, m: Model, db: Database)
    requires db == EarlierDb(columns, required, checks) && TakesRetired(columns, required, checks) && TakesRewritten(m, required)
    ensures CanRewrite(db) && RebuildReady(RewrittenDb(db), m)
  {
    EarlierRewrites(columns, required, checks, db);
    EarlierIsWellFormed(columns, required, checks, db);
    RewrittenFitsToday(columns, m.shape.columns, required, m.shape.checks);
    OneRowReady(RewrittenDb(db), m, Rewritten(EarlierRow(columns)));
  }

  lemma DeclaredTakesRewritten(columns: seq<string>, required: set<string>, provider: Check, kind: Check)
    requires "provider" in columns && "kind" in columns && forall c | c in required :: c in columns
    requires kind.column == "kind" && "ocr" in kind.values && provider.column == "provider" && "openai" in provider.values
    ensures TakesRewritten(Declared(columns, required, [provider, kind]), required)
  {
  }

  lemma KindDeclared()
    ensures "kind" in COLUMNS
  {
    assert COLUMNS[3] == "kind";
  }

  lemma ShippedTakesRewritten()
    ensures TakesRewritten(SHIPPED, REQUIRED)
  {
    RequiredDeclared();
    NamesDeclared();
    OcrIsKnown();
    KindDeclared();
    DeclaredTakesRewritten(COLUMNS, REQUIRED, CurrentCheck(), KindCheck());
  }

  lemma EarlierRebuilds(check: Check, db: Database)
    requires check.column == "provider" && check.values == EarlierCheck().values
    requires db == EarlierDb(EARLIER_COLUMNS, REQUIRED, [check, KindCheck()])
    ensures CanRewrite(db) && RebuildReady(RewrittenDb(db), SHIPPED)
  {
    VocabulariesTakeRetired(check);
    ShippedTakesRewritten();
    RebuildsFrom(EARLIER_COLUMNS, REQUIRED, [check, KindCheck()], SHIPPED, db);
  }

  /** A table from before both changes, with a route of the retired provider: the constraint still
      admits it and none of the metadata columns is there. Its rows can be rewritten, a rebuild
      lacks nothing else, and it is blocked for good. */
  lemma AnEarlierReleaseIsBlocked() returns (db: Database)
    ensures WellFormed(db) && Integrity(db) && TABLE in db.tables && SomeRetired(Rows(db))
    ensures CanRewrite(db) && RebuildReady(RewrittenDb(db), SHIPPED)
    ensures forall c | c in SHIPPED.shape.columns :: c in Columns(db) || c in METADATA
    ensures Blocked(SQLite, db)
  {
    var check := EarlierCheck();
    db := EarlierDb(EARLIER_COLUMNS, REQUIRED, [check, KindCheck()]);
    EarlierNamesDeclared();
    EarlierRebuilds(check, db);
    EarlierIsWellFormed(EARLIER_COLUMNS, REQUIRED, [check, KindCheck()], db);
    OnlyMetadataIsNew();
    EarlierCheckIsStale();
    MetadataIsAbsent();
    EarlierIsBlocked(EARLIER_COLUMNS, REQUIRED, check, KindCheck(), METADATA[0]);
  }

  lemma MetadataIsAbsent()
    ensures METADATA[0] !in EARLIER_COLUMNS && METADATA[0] in METADATA
  {
    forall i | 0 <= i < |EARLIER_COLUMNS|
      ensures EARLIER_COLUMNS[i] != METADATA[0]
    {
      MetadataIsNew(i);
    }
  }

  lemma EarlierIsBlocked(columns: seq<string>, required: set<string>, check: Check, kind: Check, c: string)
    requires StaleCheck(check) && c in METADATA && c !in columns
    ensures Blocked(SQLite, EarlierDb(columns, required, [check, kind]))
  {
    assert [check, kind][0] == check;
  }

  lemma KeptFrom(columns: seq<string>, required: set<string>, check: Check, kind: Check, m: Model, db: Database)
    requires db == EarlierDb(columns, required, [check, kind]) && TakesRetired(columns, required, [check, kind])
    requires StaleCheck(check) && check.name != PROVIDER_CHECK && check.column != RETIRED_COLUMN
    ensures WellFormed(db) && Convertible(PostgreSQL, db, m) && StaleElsewhere(db) && SomeRetired(Rows(db))
  {
    EarlierConverts(columns, required, [check, kind], m, db);
    KeptElsewhere(db, check, kind);
  }

  lemma EarlierConverts(columns: seq<string>, required: set<string>, checks: seq<Check>, m: Model, db: Database)
    requires db == EarlierDb(columns, required, checks) && TakesRetired(columns, required, checks)
    ensures WellFormed(db) && Convertible(PostgreSQL, db, m) && SomeRetired(Rows(db))
    ensures TABLE in db.tables && db.tables[TABLE].shape.checks == checks
  {
    EarlierRewrites(columns, required, checks, db);
    EarlierIsWellFormed(columns, required, checks, db);
    RewrittenConverts(db, m, columns);
  }

  lemma KeptElsewhere(db: Database, check: Check, kind: Check)
    requires TABLE in db.tables && db.tables[TABLE].shape.checks == [check, kind]
    requires StaleCheck(check) && check.name != PROVIDER_CHECK && check.column != RETIRED_COLUMN
    ensures StaleElsewhere(db)
  {
    assert [check, kind][0] == check;
  }

  /** The same constraint under another name: the boot goes through on PostgreSQL, and keeps it. */
  lemma AnotherNameIsKept() returns (db: Database)
    ensures WellFormed(db) && Convertible(PostgreSQL, db, SHIPPED) && StaleElsewhere(db) && SomeRetired(Rows(db))
  {
    var check := RenamedCheck();
    db := EarlierDb(EARLIER_COLUMNS, REQUIRED, [check, KindCheck()]);
    VocabulariesTakeRetired(check);
    KeptFrom(EARLIER_COLUMNS, REQUIRED, check, KindCheck(), SHIPPED, db);
  }

  lemma RenamedCheck() returns (check: Check)
    ensures StaleCheck(check) && check.name != PROVIDER_CHECK && check.column == "provider" && check.values == EarlierCheck().values
    ensures check.column != RETIRED_COLUMN
  {
    check := EarlierCheck().(name := "provider_vocabulary");
    EarlierCheckIsStale();
    assert "provider_vocabulary" != PROVIDER_CHECK;
    assert |"provider"| != |RETIRED_COLUMN|;
  }

  lemma RewrittenConverts(db: Database, m: Model, columns: seq<string>)
    requires TABLE in db.tables && CanRewrite(db) && Rows(RewrittenDb(db)) == [Rewritten(EarlierRow(columns))]
    requires "provider" in columns && "path" in columns && "kind" in columns
    requires forall u | u in db.tables :: db.tables[u].shape.foreignKeys == []
    ensures Convertible(PostgreSQL, db, m)
  {
    RewrittenPasses(columns);
    assert !Targeted(RewrittenDb(db), TABLE, RETIRED_COLUMN);
  }

  lemma RewrittenPasses(columns: seq<string>)
    requires "provider" in columns && "path" in columns && "kind" in columns
    ensures Passes(CurrentCheck(), Rewritten(EarlierRow(columns)))
  {
    RewrittenStaysApart(columns, Rewritten(EarlierRow(columns)));
    OcrIsKnown();
  }
}
